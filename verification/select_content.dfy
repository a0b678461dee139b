/**
  The render decision of SelectContent: which of its four branches renders the list
  contents, and, for the portal branch, the flags handed to the overlay and focus scope.
*/
module SelectContent {
  import opened Wrappers

  /** Overlay stacking order when the caller gives none. */
  const DefaultZIndex: int := 1000

  /**
    The rendered branch:
    - `Native`: the bare children, for a select rendered as the platform's native control;
    - `Nothing`: no output (sheet mode while closed);
    - `Sheet`: the themed contents without a portal (sheet mode while open);
    - `Portal`: the themed contents inside a portal, an overlay and a focus scope.
  */
  datatype Render =
    | Native
    | Nothing
    | Sheet
    | Portal(pointerEventsAuto: bool, lockScroll: bool, trapped: bool, loop: bool, zIndex: int)

  /**
    Focus-scope props the caller passes through. They are spread after the component's own
    `loop` and `trapped`, so a value given here wins.
  */
  datatype FocusScopeOverrides = FocusScopeOverrides(loop: Option<bool>, trapped: Option<bool>)

  /** No focus-scope prop passed through. */
  const NoOverrides := FocusScopeOverrides(None, None)

  /** SelectContent's branch structure. */
  function Decide(shouldRenderWebNative: bool, showSheet: bool, open: bool, touch: bool,
                  zIndex: Option<int>, overrides: FocusScopeOverrides): (r: Render)
    ensures shouldRenderWebNative ==> r == Native
    ensures !shouldRenderWebNative && showSheet ==> r == (if open then Sheet else Nothing)
    ensures !shouldRenderWebNative && !showSheet ==> r.Portal?
    ensures r.Portal? ==>
      && (r.pointerEventsAuto <==> open)
      && (r.lockScroll <==> open && !touch)
      && r.trapped == overrides.trapped.GetOr(open)
      && r.loop == overrides.loop.GetOr(true)
      && r.zIndex == zIndex.GetOr(DefaultZIndex)
  {
    var z := zIndex.GetOr(DefaultZIndex);
    if shouldRenderWebNative then Native
    else if showSheet then (if !open then Nothing else Sheet)
    else Portal(pointerEventsAuto := open,
                lockScroll := open && !touch,
                trapped := overrides.trapped.GetOr(open),
                loop := overrides.loop.GetOr(true),
                zIndex := z)
  }
}
