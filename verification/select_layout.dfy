/**
  The pure layout derivations of the inline select: scroll-arrow visibility, the
  positioning middleware chain handed to the floating-element hook, and the output of
  its size-fit step. The placement arithmetic of the middleware themselves belongs to
  the positioning library and is not modelled.
*/
module SelectLayout {
  import opened Wrappers
  import opened SelectMachine

  /** Offset, in pixels, of the fallback strategy from the trigger. */
  const FallbackOffset: real := 5.0

  /** Padding the inner strategy keeps from the viewport edge. */
  const InnerPadding: real := 10.0

  /** How close to the edge the trigger may sit before anchoring is refused. */
  const ReferenceOverflowThreshold: real := 20.0

  /** Minimum number of items the inner strategy keeps visible, per input modality. */
  function MinItemsVisible(touch: bool): nat
  {
    if touch then 10 else 4
  }

  /** Measurements of the mounted floating list. */
  datatype Metrics = Metrics(scrollHeight: real, clientHeight: real)

  /** Visibility of the two scroll arrows, as handed to the context. */
  datatype Arrows = Arrows(canScrollUp: bool, canScrollDown: bool)

  /**
    Arrow visibility. `floating` is the mounted floating element's metrics, `None` while
    it is not mounted.
  */
  function ScrollArrows(open: bool, scrollTop: real, floating: Option<Metrics>, threshold: real): (r: Arrows)
    ensures r.canScrollUp <==> open && scrollTop > threshold
    ensures r.canScrollDown <==>
      open && floating.Some? &&
      scrollTop < floating.value.scrollHeight - floating.value.clientHeight - threshold
    ensures !open ==> !r.canScrollUp && !r.canScrollDown
  {
    var showUp := open && scrollTop > threshold;
    var showDown :=
      match floating
      case None => false
      case Some(m) => open && scrollTop < m.scrollHeight - m.clientHeight - threshold;
    Arrows(showUp, showDown)
  }

  /** Arrow visibility of a machine state. */
  function StateArrows(env: Env, s: State, floating: Option<Metrics>): Arrows
  {
    ScrollArrows(s.open, s.scrollTop, floating, env.scrollArrowThreshold)
  }

  /** The placement requested from the positioning hook. */
  datatype Placement = BottomStart

  /** One entry of the positioning middleware chain. */
  datatype Middleware =
    | Offset(distance: real)
    | Shift(crossAxis: bool, padding: real)
    | Flip(padding: real)
    | Inner(index: Option<nat>, offset: real, padding: real, minItemsVisible: nat,
            referenceOverflowThreshold: real)
    | Size(padding: real)

  /** The configuration handed to the floating-element hook. */
  datatype FloatingConfig = FloatingConfig(open: bool, placement: Placement, middleware: seq<Middleware>)

  /** True when `m` belongs to the fallback strategy (its offset and its shift or flip). */
  predicate IsFallbackEntry(m: Middleware)
  {
    m.Offset? || m.Shift? || m.Flip?
  }

  /**
    The middleware chain: the inner (native-select-like) strategy anchored at the selected
    item, or, once the inner strategy has reported that it cannot fit, a fixed offset with a
    cross-axis shift on touch devices and a flip otherwise; either way followed by size-fit.
  */
  function Middlewares(fallback: bool, touch: bool, selectedIndex: Option<nat>, innerOffset: real,
                       windowPadding: real): (r: seq<Middleware>)
    ensures |r| >= 2 && r[|r| - 1] == Size(windowPadding)
    ensures fallback ==>
      r == [Offset(FallbackOffset),
            if touch then Shift(true, windowPadding) else Flip(windowPadding),
            Size(windowPadding)]
    ensures !fallback ==>
      r == [Inner(selectedIndex, innerOffset, InnerPadding, MinItemsVisible(touch),
                  ReferenceOverflowThreshold),
            Size(windowPadding)]
  {
    if fallback then
      var avoid := if touch then Shift(crossAxis := true, padding := windowPadding)
                   else Flip(padding := windowPadding);
      [Offset(FallbackOffset), avoid, Size(windowPadding)]
    else
      [Inner(index := selectedIndex, offset := innerOffset, padding := InnerPadding,
             minItemsVisible := MinItemsVisible(touch),
             referenceOverflowThreshold := ReferenceOverflowThreshold),
       Size(windowPadding)]
  }

  /** The floating-element hook's configuration for a machine state. */
  function Config(env: Env, s: State): FloatingConfig
  {
    FloatingConfig(s.open, BottomStart,
                   Middlewares(s.fallback, env.touch, s.selectedIndex, s.innerOffset, env.windowPadding))
  }

  /** A rectangle's size as the positioning library reports it. */
  datatype Rect = Rect(width: real, height: real)

  /** What the positioning library passes to the size-fit step's `apply` callback. */
  datatype SizeInput = SizeInput(availableWidth: real, availableHeight: real, reference: Rect, floating: Rect)

  /** The style the size-fit step records for the floating list (`floatingStyle.current`). */
  datatype FloatingSize = FloatingSize(width: real, maxHeight: real)

  /** The size-fit `apply` callback: match the trigger's width, cap at the available height. */
  function SizeFit(input: SizeInput): (r: FloatingSize)
    ensures r.width == input.reference.width
    ensures r.maxHeight == input.availableHeight
  {
    FloatingSize(width := input.reference.width, maxHeight := input.availableHeight)
  }

  /** Positioning scheme reported by the floating-element hook. */
  datatype PositionStrategy = Absolute | Fixed

  /**
    The part of the caller's `style` prop this model follows; `None` leaves a property
    unset, so the component's own value stands.
  */
  datatype StyleProps = StyleProps(
    position: Option<PositionStrategy>,
    top: Option<real>,
    left: Option<real>,
    width: Option<real>,
    maxHeight: Option<real>)

  /** A caller that passes no style. */
  const NoStyle := StyleProps(None, None, None, None, None)

  /**
    The floating list's merged style. `None` stands for an unset property (the empty
    string for `top` and `left`, an absent key for `width` and `maxHeight`).
  */
  datatype ListStyle = ListStyle(
    position: PositionStrategy,
    top: Option<real>,
    left: Option<real>,
    outline: real,
    scrollbarHidden: bool,
    width: Option<real>,
    maxHeight: Option<real>)

  /** The value of one style key after spreading `over` on top of `base`. */
  function Spread<T>(base: Option<T>, over: Option<T>): (r: Option<T>)
    ensures over.Some? ==> r == over
    ensures over.None? ==> r == base
  {
    if over.Some? then over else base
  }

  /**
    The style `getFloatingProps` builds: the hook's position and coordinates, no outline,
    hidden scrollbar, then the last size-fit output, then the caller's style, later entries
    winning. `fit` is `None` before any size-fit has run.
  */
  function ListStyleOf(strategy: PositionStrategy, x: Option<real>, y: Option<real>,
                       fit: Option<FloatingSize>, caller: StyleProps): (r: ListStyle)
    ensures r.outline == 0.0 && r.scrollbarHidden
    ensures r.position == caller.position.GetOr(strategy)
    ensures caller.top.Some? ==> r.top == caller.top
    ensures caller.left.Some? ==> r.left == caller.left
    ensures caller.top.None? ==> r.top == y
    ensures caller.left.None? ==> r.left == x
    ensures caller.width.Some? ==> r.width == caller.width
    ensures caller.maxHeight.Some? ==> r.maxHeight == caller.maxHeight
    ensures caller.width.None? && fit.Some? ==> r.width == Some(fit.value.width)
    ensures caller.maxHeight.None? && fit.Some? ==> r.maxHeight == Some(fit.value.maxHeight)
    ensures caller.width.None? && fit.None? ==> r.width == None
    ensures caller.maxHeight.None? && fit.None? ==> r.maxHeight == None
  {
    var fitWidth := match fit case Some(f) => Some(f.width) case None => None;
    var fitMaxHeight := match fit case Some(f) => Some(f.maxHeight) case None => None;
    ListStyle(
      position := caller.position.GetOr(strategy),
      top := Spread(y, caller.top),
      left := Spread(x, caller.left),
      outline := 0.0,
      scrollbarHidden := true,
      width := Spread(fitWidth, caller.width),
      maxHeight := Spread(fitMaxHeight, caller.maxHeight))
  }
}
