/**
  The interaction state machine of the inline select (SelectInlineImpl).

  Every piece of React state and every mutable ref the component keeps is a field of one
  immutable `State` record, and every handler or effect that writes them is one case of `Step`.
  A transition yields the state observed once the effects keyed on `open` have run; when those
  effects run (layout effect, microtask, synchronous flush) is not modelled.
*/
module SelectMachine {
  import opened Wrappers

  /** The trigger key that always opens the select. */
  const EnterKey: string := "Enter"

  /** The trigger key that opens the select unless a typeahead string is being typed. */
  const SpaceKey: string := " "

  /**
    What the component reads from its surroundings rather than from its own state:
    the input modality, whether it runs as a web client (only then is the document
    mouse-up listener installed), and the two named layout constants.
  */
  datatype Env = Env(
    touch: bool,
    webClient: bool,
    windowPadding: real,
    scrollArrowThreshold: real)

  /**
    The whole interaction state of one select instance. Pixel quantities are `real`, as the
    DOM reports fractional values. `selectTimerPending` is true between arming the 300 ms
    select-commit timer and its firing or cancellation.
  */
  datatype State = State(
    open: bool,
    scrollTop: real,
    fallback: bool,
    innerOffset: real,
    activeIndex: Option<nat>,
    selectedIndex: Option<nat>,
    controlledScrolling: bool,
    blockSelection: bool,
    isMouseOutside: bool,
    allowSelect: bool,
    allowMouseUp: bool,
    selectTimerPending: bool)

  /**
    The inputs that drive the machine. The collaborators whose internals are not part
    of this model (click and dismiss handling, list navigation, typeahead matching, the
    inner-offset and fallback computations of the positioning library, the option items
    that receive the context setters) appear only through the value they hand to a setter.

    `listTop` on the events that may open the select is the floating list's `scrollTop`
    as the open-keyed layout effect measures it, `None` while the list is not mounted.
  */
  datatype Event =
    | RequestOpen(listTop: Option<real>)               // setOpen(true), from any caller
    | RequestClose                                     // setOpen(false), from any caller
    | TriggerKeyDown(key: string, typing: bool, keyListTop: Option<real>)
    | FloatingPointerEnter
    | FloatingPointerLeave
    | FloatingPointerMove
    | FloatingKeyDown
    | FloatingScroll(top: real)                        // setScrollTop, from the list or any caller
    | DocumentPointerDown(insideFloatingOrArrows: bool)
    | DocumentMouseUp
    | SelectTimerFired
    | FallbackChange(value: bool)                      // onFallbackChange of the inner strategy
    | Navigate(target: Option<nat>)                    // setActiveIndex, from navigation or any caller
    | InnerOffsetChange(offset: real)                  // onChange of the inner-offset hook
    | TypeaheadMatch(found: nat)                       // onMatch of typeahead
    | Commit(committed: nat)                           // setSelectedIndex, from any caller

  /** The key guard of the trigger's key-down handler. */
  predicate ActivatesTrigger(key: string, typing: bool)
  {
    key == EnterKey || (key == SpaceKey && !typing)
  }

  /** A closed select whose session fields are all back at their initial values. */
  predicate SessionReset(s: State)
  {
    && !s.open
    && s.scrollTop == 0.0
    && !s.fallback
    && s.activeIndex == None
    && !s.controlledScrolling
    && s.innerOffset == 0.0
    && !s.blockSelection
    && !s.allowSelect
    && s.allowMouseUp
    && !s.isMouseOutside
    && !s.selectTimerPending
  }

  /**
    The selection-commit gate: while open exactly one of "timer still pending" and
    "selection allowed" holds; while closed neither does.
  */
  predicate SessionInvariant(s: State)
  {
    if s.open then s.selectTimerPending != s.allowSelect
    else !s.selectTimerPending && !s.allowSelect
  }

  /** The state once every effect run by `open` becoming false has finished. */
  function Close(s: State): (r: State)
    ensures SessionReset(r)
    ensures r.selectedIndex == s.selectedIndex
  {
    s.(open := false,
       scrollTop := 0.0, fallback := false, activeIndex := None, controlledScrolling := false,
       allowSelect := false, allowMouseUp := true, innerOffset := 0.0, blockSelection := false,
       selectTimerPending := false,
       isMouseOutside := false)
  }

  /**
    The state once `open` has become true: the select-commit timer is armed and the scroll
    position is re-read from the list (0 when it is not mounted); nothing else moves.
  */
  function Open(s: State, listTop: Option<real>): (r: State)
    ensures r.open && r.selectTimerPending
    ensures r.scrollTop == listTop.GetOr(0.0)
    ensures r.(open := s.open, selectTimerPending := s.selectTimerPending, scrollTop := s.scrollTop) == s
  {
    s.(open := true, selectTimerPending := true, scrollTop := listTop.GetOr(0.0))
  }

  /**
    `setOpen(value)`. The effects are keyed on `open`, so a request that does not change
    it runs none of them and changes nothing. `listTop` is the list's scroll position as the
    open-keyed effect reads it. On closing the model takes the deferred reset to 0; the
    re-read that clearing a set `activeIndex` or `controlledScrolling` can trigger after
    that reset is not modelled.
  */
  function SetOpen(s: State, value: bool, listTop: Option<real>): (r: State)
    ensures r.open == value
    ensures value == s.open ==> r == s
    ensures s.open && !value ==> SessionReset(r) && r.selectedIndex == s.selectedIndex
    ensures !s.open && value ==>
      && r.selectTimerPending
      && r.scrollTop == listTop.GetOr(0.0)
      && r.(open := false, selectTimerPending := s.selectTimerPending, scrollTop := s.scrollTop) == s
  {
    if value == s.open then s
    else if value then Open(s, listTop)
    else Close(s)
  }

  /**
    The state right after mounting with the given `open` prop and context indices, once the
    mount effects have run: a closed mount runs the close effects, an open one arms the timer
    and reads the list's scroll position.
  */
  function Mount(open: bool, selectedIndex: Option<nat>, activeIndex: Option<nat>,
                 listTop: Option<real>): (r: State)
    ensures r.open == open && r.selectedIndex == selectedIndex
    ensures SessionInvariant(r)
    ensures !open ==> SessionReset(r)
    ensures open ==> r.activeIndex == activeIndex && !r.allowSelect && r.scrollTop == listTop.GetOr(0.0)
  {
    var blank := State(
      open := false, scrollTop := 0.0, fallback := false, innerOffset := 0.0,
      activeIndex := activeIndex, selectedIndex := selectedIndex,
      controlledScrolling := false, blockSelection := false, isMouseOutside := false,
      allowSelect := false, allowMouseUp := true, selectTimerPending := false);
    if open then Open(blank, listTop) else Close(blank)
  }

  /** One transition of the machine. */
  function Step(env: Env, s: State, e: Event): (r: State)
    // only requests, the trigger keys and the two document listeners move `open`
    ensures r.open != s.open ==>
      e.RequestOpen? || e.RequestClose? || e.TriggerKeyDown? || e.DocumentPointerDown? || e.DocumentMouseUp?
    // the committed index moves only through a commit or a typeahead match while closed
    ensures r.selectedIndex != s.selectedIndex ==> e.Commit? || (e.TypeaheadMatch? && !s.open)
    // closing always resets the session
    ensures s.open && !r.open ==> SessionReset(r) && r.selectedIndex == s.selectedIndex
    // the document listeners are detached while closed
    ensures !s.open && (e.DocumentPointerDown? || e.DocumentMouseUp?) ==> r == s
  {
    match e
    case RequestOpen(listTop) =>
      SetOpen(s, true, listTop)
    case RequestClose =>
      SetOpen(s, false, None)
    case TriggerKeyDown(key, typing, listTop) =>
      if ActivatesTrigger(key, typing) then SetOpen(s, true, listTop) else s
    case FloatingPointerEnter =>
      s.(controlledScrolling := false, isMouseOutside := false)
    case FloatingPointerLeave =>
      s.(isMouseOutside := true)
    case FloatingPointerMove =>
      s.(isMouseOutside := false, controlledScrolling := false)
    case FloatingKeyDown =>
      s.(controlledScrolling := true)
    case FloatingScroll(top) =>
      s.(scrollTop := top)
    case DocumentPointerDown(inside) =>
      if s.open && !inside then SetOpen(s.(controlledScrolling := false), false, None) else s
    case DocumentMouseUp =>
      if env.webClient && s.open && s.isMouseOutside then SetOpen(s, false, None) else s
    case SelectTimerFired =>
      if s.selectTimerPending then s.(allowSelect := true, selectTimerPending := false) else s
    case FallbackChange(value) =>
      s.(fallback := value)
    case Navigate(index) =>
      s.(activeIndex := index)
    case InnerOffsetChange(offset) =>
      if s.fallback then s else s.(innerOffset := offset)
    case TypeaheadMatch(index) =>
      if s.open then s.(activeIndex := Some(index)) else s.(selectedIndex := Some(index))
    case Commit(index) =>
      s.(selectedIndex := Some(index))
  }

  /** The state after the events `es`, delivered in order. */
  function Run(env: Env, s: State, es: seq<Event>): State
    decreases |es|
  {
    if es == [] then s else Run(env, Step(env, s, es[0]), es[1..])
  }
}
