# Select interaction model

A Dafny model of the inline select widget's interaction controller (`SelectInlineImpl`)
and of the render decision of its content (`SelectContent`).

- `SelectMachine` (`select_machine.dfy`) holds the component's React state and mutable refs
  as one immutable `State` record: `open`, `scrollTop`, `fallback`, `innerOffset`,
  `activeIndex`, `selectedIndex`, `controlledScrolling`, `blockSelection`, `isMouseOutside`,
  `allowSelect`, `allowMouseUp`, and whether the 300 ms select-commit timer is pending.
  Pixel quantities are `real`. `Step(env, state, event)` is the transition function. Its
  events are open/close requests, trigger key-down, floating-list pointer enter/leave/move,
  key-down and scroll, document pointer-down and mouse-up, the timer firing, and the values
  the positioning, navigation and typeahead hooks and the context setters (`setOpen`,
  `setActiveIndex`, `setSelectedIndex`, `setScrollTop`) hand over. A transition yields the
  state once every effect keyed on `open` has run. Opening therefore also carries the list's
  measured `scrollTop`, which the open-keyed effect reads back. `Run` folds `Step` over an
  event sequence.
- `SelectLayout` (`select_layout.dfy`) derives scroll-arrow visibility, the positioning
  middleware chain (inner strategy, or offset plus shift/flip in fallback mode, each followed
  by size-fit), the size-fit output, and the floating list's merged style.
- `SelectContent` (`select_content.dfy`) decides between the native, empty, sheet and portal
  branches and computes the portal's overlay and focus-scope flags.
- `SelectProperties` (`select_properties.dfy`) proves the properties below over single
  transitions and over event sequences.

The environment (`Env`) carries what the component reads from outside its state: the touch
modality, whether it runs as a web client, and the two named layout constants
`WINDOW_PADDING` and `SCROLL_ARROW_THRESHOLD`, whose values are not part of this model and
are therefore parameters.

Behaviour worth knowing:
- The session fields are reset when the select closes (and on a closed mount). Opening arms
  the select-commit timer and re-reads the list's scroll position; it resets nothing else.
- Caller focus-scope props are spread after `loop` and `trapped`, so a caller can override
  both. Without an override, `loop` is true and `trapped` follows `open`.
- The fallback flag is whatever the positioning library last reported. The model does not
  promise that it stays set for the rest of a session, nor that it is reached only while open.
- In the model the session fields are at their initial values right after each close
  (for `scrollTop`, see the `SelectMachine.Close` line under "Left out"). The floating list's
  own handlers (pointer, key, scroll) and the hook and context setters are not guarded by
  `open`, so events that arrive while closed can still move `scrollTop`, `fallback`,
  `innerOffset` (while not in fallback), `activeIndex`, `controlledScrolling` and
  `isMouseOutside`; `selectedIndex` moves while closed through typeahead matches and commits. What holds in every reachable closed state is the
  commit gate: selection is not allowed and no timer is pending.

## Model

| member | source | states |
|---|---|---|
| SelectMachine.Close | packages/select/src/SelectImpl.tsx:246-268 | after closing, every session field is at its initial value (no timer, selection not allowed, mouse-up allowed, zero offset and scroll, no fallback, no active index, no controlled scrolling, no blocked selection, mouse not outside); the committed index is kept |
| SelectMachine.Open | packages/select/src/SelectImpl.tsx:246-305 | opening arms the select-commit timer and sets the scroll position to the list's measured `scrollTop` (0 when the list is not mounted); every other field is left as it was |
| SelectMachine.SetOpen | packages/select/src/SelectImpl.tsx:246-262 | a request that does not change `open` changes nothing; opening arms the timer, takes the measured scroll position and changes nothing else; closing resets the session |
| SelectMachine.Mount | packages/select/src/SelectImpl.tsx:49-66 | a freshly mounted select satisfies the commit-gate invariant; a closed mount is fully reset and an open one has the timer armed, selection not yet allowed and the measured scroll position |
| SelectMachine.Step | packages/select/src/SelectImpl.tsx:188-293 | only open requests, trigger keys and the two document listeners change `open`; the committed index changes only through a commit or a typeahead match while closed; every close resets the session; document events are ignored while closed |
| SelectLayout.ScrollArrows | packages/select/src/SelectImpl.tsx:152-159 | up arrow iff open and scrolled past the threshold; down arrow iff open, the list is mounted and more than the threshold remains below; no arrow while closed |
| SelectLayout.Middlewares | packages/select/src/SelectImpl.tsx:113-140 | fallback mode gives offset 5 then a cross-axis shift on touch or a flip otherwise; inner mode anchors at the selected index with the inner offset, padding 10, 10 visible items on touch or 4 otherwise, and overflow threshold 20; both end with size-fit at the window padding |
| SelectLayout.SizeFit | packages/select/src/SelectImpl.tsx:98-111 | the floating list takes the trigger's width and is capped at the available height |
| SelectLayout.ListStyleOf | packages/select/src/SelectImpl.tsx:203-216 | the list has no outline and a hidden scrollbar; position, coordinates, width and height cap come from the caller's style when it sets them, otherwise from the hook and the last size-fit (absent before any size-fit) |
| SelectContent.Decide | packages/select/src/SelectContent.tsx:15-55 | native rendering wins over everything; sheet mode renders nothing when closed and the themed sheet when open; otherwise the portal captures pointer events iff open, locks scroll iff open and not touch, traps focus iff open and loops unless the caller overrides, at the given z-index or 1000 |
| SelectProperties.StepKeepsSessionInvariant | packages/select/src/SelectImpl.tsx:246-262 | every transition keeps the commit gate: open means exactly one of "timer pending" and "selection allowed", closed means neither |
| SelectProperties.RunKeepsSessionInvariant | packages/select/src/SelectImpl.tsx:246-262 | every event sequence keeps the commit gate |
| SelectProperties.ClosedNeverAllowsSelect | packages/select/src/SelectImpl.tsx:246-262 | in every state reachable from a mount, a closed select neither allows selection nor has the timer pending |
| SelectProperties.StaleTimerIsNoOp | packages/select/src/SelectImpl.tsx:248-254 | a timer firing with none pending changes nothing |
| SelectProperties.AllowSelectOnlyThroughTimer | packages/select/src/SelectImpl.tsx:248-250 | an event sequence without a timer firing never makes selection allowed |
| SelectProperties.CommittedIndexOnlyFromTypeaheadOrCommit | packages/select/src/SelectImpl.tsx:41-48 | across any event sequence without a typeahead match or a `setSelectedIndex` commit the committed index is unchanged |
| SelectProperties.OpenThenTimerAllowsSelect | packages/select/src/SelectImpl.tsx:246-251 | opening alone does not allow selection; opening then the timer firing does |
| SelectProperties.CloseForgetsSession | packages/select/src/SelectImpl.tsx:71-80 | two open selects with the same committed index end in the same state after any closing transition, whatever their sessions were |
| SelectProperties.ReopenStartsAnchored | packages/select/src/SelectImpl.tsx:246-305 | re-opening after any close starts with the inner strategy at the committed index and offset 0, no active index, no controlled scrolling, timer armed, the measured scroll position, and the up arrow iff that position exceeds the threshold |
| SelectProperties.CloseIsIdempotent | packages/select/src/SelectImpl.tsx:246-262 | requesting close twice gives the same state as once |
| SelectProperties.ClosedIgnoresDocumentEvents | packages/select/src/SelectImpl.tsx:272-293 | a closed select is unchanged by any sequence of document pointer-downs, mouse-ups, timer firings and close requests |
| SelectProperties.OutsidePointerDownCloses | packages/select/src/SelectImpl.tsx:272-293 | a pointer-down changes `open` iff the select is open and the target is outside the list and both arrows; then the session is reset with controlled scrolling off; otherwise nothing changes |
| SelectProperties.PointerTracking | packages/select/src/SelectImpl.tsx:217-230 | leaving the list marks the mouse outside; entering or moving marks it inside and ends controlled scrolling; a key-down in the list starts controlled scrolling; none of them changes `open` |
| SelectProperties.MouseUpClosesWhenOutside | packages/select/src/SelectImpl.tsx:83-96 | on a web client a document mouse-up changes `open` iff the select is open and the mouse is outside the list; otherwise nothing changes |
| SelectProperties.MouseUpIgnoredOffWeb | packages/select/src/SelectImpl.tsx:83-84 | off the web client a document mouse-up changes nothing |
| SelectProperties.DragReleaseDismiss | packages/select/src/SelectImpl.tsx:86-90 | leave then release closes an open select; leave, re-enter, then release keeps it open |
| SelectProperties.TriggerKeyOpens | packages/select/src/SelectImpl.tsx:192-199 | Enter opens; Space opens iff not typing (or already open); other keys and keys on an open select change nothing; opening keeps the active index, takes the measured scroll position and arms the timer |
| SelectProperties.TypeaheadRouting | packages/select/src/SelectImpl.tsx:177-182 | a match sets the active index while open and the selected index while closed, leaving the other index and `open` alone |
| SelectProperties.ScrollUpdatesArrows | packages/select/src/SelectImpl.tsx:234-238 | after a scroll event on an open list the arrows reflect the new position in the same transition |
| SelectProperties.BothArrowsNeedRoom | packages/select/src/SelectImpl.tsx:152-159 | both arrows show only if the scroll range exceeds twice the threshold |
| SelectProperties.ArrowsMonotone | packages/select/src/SelectImpl.tsx:152-159 | scrolling further down never hides the up arrow and never reveals the down arrow |
| SelectProperties.OneStrategyAtATime | packages/select/src/SelectImpl.tsx:117-139 | the chain holds a fallback entry iff fallback mode, and an inner entry iff not |
| SelectProperties.FallbackIgnoresInnerState | packages/select/src/SelectImpl.tsx:117-126 | in fallback mode the chain does not depend on the selected index or the inner offset |
| SelectProperties.MiddlewaresDetermineInputs | packages/select/src/SelectImpl.tsx:117-139 | equal chains come from the same mode, modality and padding, and in inner mode from the same index and offset |
| SelectProperties.ListTakesLastSizeFit | packages/select/src/SelectImpl.tsx:98-111 | after a size-fit the list's width is the trigger's width and its height cap the available height, unless the caller's style sets them |
| SelectProperties.NoCapBeforeSizeFit | packages/select/src/SelectImpl.tsx:205-216 | before any size-fit and with no caller style the list has no width or height cap and keeps the hook's position and coordinates |
| SelectProperties.InnerOffsetFrozenInFallback | packages/select/src/SelectImpl.tsx:165-170 | an inner-offset change is ignored in fallback mode, where the hook is disabled |
| SelectProperties.RendersNothingIff | packages/select/src/SelectContent.tsx:33-42 | the content renders nothing exactly when not native, in sheet mode, and closed |
| SelectProperties.PortalFlagsAgree | packages/select/src/SelectContent.tsx:44-55 | without overrides the portal captures pointer events exactly when it traps focus, locks scroll only then, always loops, and defaults to z-index 1000 |

## Left out

- Placement arithmetic of the inner, offset, flip, shift and size middleware, list navigation, typeahead string matching, click, dismiss, role and inner-offset hooks: they belong to `@floating-ui/react`, which is not part of this model. Their outputs enter as events (`FallbackChange`, `Navigate`, `TypeaheadMatch`, `InnerOffsetChange`, `RequestOpen`, `RequestClose`) with no constraint on their values.
- Context setters called by other components: `RequestOpen`/`RequestClose`, `Navigate`, `Commit` and `FloatingScroll` stand for `setOpen`, `setActiveIndex`, `setSelectedIndex` and `setScrollTop` from any caller. Not modelled are the other writes those components can make through what `SelectProvider` passes down: `allowMouseUpRef`, `allowSelectRef`, `selectTimeoutRef`, and `setInnerOffset`, which, unlike the hook's `onChange`, is not disabled in fallback mode. Within this component `allowMouseUp` is only ever set to true and `blockSelection` only to false.
- SelectProperties.AllowSelectOnlyThroughTimer: holds for this component's own writes; a component that writes `allowSelectRef` through the context is not modelled.
- SelectMachine.Close: the model ends every close with `scrollTop` at 0, the value the deferred reset writes. When `activeIndex` was set or `controlledScrolling` was true at the moment of closing, the reset clears them, which re-runs the effect that reads the list's `scrollTop`; a list that stays mounted while closed (the portal branch) then puts its own position back. The model does not carry that second read, so the `scrollTop == 0` in `SessionReset`, and through it in `SelectMachine.Step`, `SelectMachine.SetOpen`, `SelectProperties.CloseForgetsSession` and `SelectProperties.OutsidePointerDownCloses`, is the model's value. The gap is bounded: the arrows need `open`, and opening reads the position again.
- SelectMachine.Mount: a closed mount ends with `scrollTop` at 0; when the context's `activeIndex` is set, clearing it triggers the same second read of the list's position, which is not modelled.
- SelectMachine.Step: the effect that re-reads the list's `scrollTop` also runs when `activeIndex` or `controlledScrolling` changes; those re-reads are not modelled on the events that change these fields. A new list position reaches the state through `FloatingScroll`, which the list's own scroll handler also delivers.
- SelectLayout.ListStyleOf: of the caller's style, only `position`, `top`, `left`, `width` and `maxHeight` are followed; a caller cannot reset `top` or `left` to the empty string; the other spread props are not modelled.
- Scheduling: layout effects, `queueMicrotask`, `flushSync` and memoisation only decide when a transition becomes visible. The model keeps the end state of each transition.
- Timer time: the 300 ms delay is not a clock in the model. The timer firing is an event.
- The `scrollIntoView` calls, clearing `style.maxHeight` in fallback mode, listener registration and removal, and `contains`: DOM details. Containment is a boolean on `DocumentPointerDown`; the measured scroll position is an `Option` on the opening events.
- Floating-point rounding: pixel values are exact reals.
- The provider plumbing, the commented-out form code, the theme, and the rendering done by the focus scope and portal.
- `packages/stacks/src/Stacks.tsx` and the kitchen-sink use case: styling with no behaviour.
