/**
  Properties of the select's interaction state machine, its layout derivations and its
  render decision, stated over single transitions and over event sequences.
*/
module SelectProperties {
  import opened Wrappers
  import opened SelectMachine
  import opened SelectLayout
  import SelectContent

  // ---------------------------------------------------------------------------
  // Selection-commit gating
  // ---------------------------------------------------------------------------

  /** Every transition keeps the selection-commit gate consistent. */
  lemma StepKeepsSessionInvariant(env: Env, s: State, e: Event)
    requires SessionInvariant(s)
    ensures SessionInvariant(Step(env, s, e))
  {
  }

  /** So does every sequence of transitions. */
  lemma {:induction false} RunKeepsSessionInvariant(env: Env, s: State, es: seq<Event>)
    requires SessionInvariant(s)
    ensures SessionInvariant(Run(env, s, es))
    decreases |es|
  {
    if es != [] {
      StepKeepsSessionInvariant(env, s, es[0]);
      RunKeepsSessionInvariant(env, Step(env, s, es[0]), es[1..]);
    }
  }

  /** From mount onwards, a closed select never allows a selection to be committed. */
  lemma ClosedNeverAllowsSelect(env: Env, open: bool, selectedIndex: Option<nat>,
                                activeIndex: Option<nat>, listTop: Option<real>, es: seq<Event>)
    ensures var r := Run(env, Mount(open, selectedIndex, activeIndex, listTop), es);
            !r.open ==> !r.allowSelect && !r.selectTimerPending
  {
    RunKeepsSessionInvariant(env, Mount(open, selectedIndex, activeIndex, listTop), es);
  }

  /** A timer that is not pending does nothing when it fires. */
  lemma StaleTimerIsNoOp(env: Env, s: State)
    requires !s.selectTimerPending
    ensures Step(env, s, SelectTimerFired) == s
  {
  }

  /** No event other than the timer firing makes a selection allowed. */
  lemma StepKeepsSelectDisallowed(env: Env, s: State, e: Event)
    requires !s.allowSelect && !e.SelectTimerFired?
    ensures !Step(env, s, e).allowSelect
  {
    // the case split only keeps each proof obligation small for the solver
    match e {
      case RequestOpen(top) =>
      case TriggerKeyDown(key, typing, top) =>
      case DocumentPointerDown(inside) =>
      case DocumentMouseUp =>
      case _ =>
    }
  }

  /** Within this component, the timer is the only way a selection becomes allowed. */
  lemma {:induction false} AllowSelectOnlyThroughTimer(env: Env, s: State, es: seq<Event>)
    requires !s.allowSelect
    requires forall i :: 0 <= i < |es| ==> !es[i].SelectTimerFired?
    ensures !Run(env, s, es).allowSelect
    decreases |es|
  {
    if es != [] {
      StepKeepsSelectDisallowed(env, s, es[0]);
      AllowSelectOnlyThroughTimer(env, Step(env, s, es[0]), es[1..]);
    }
  }

  /** Opening a closed select and letting the timer fire allows a selection; nothing earlier does. */
  lemma OpenThenTimerAllowsSelect(env: Env, s: State, listTop: Option<real>)
    requires SessionInvariant(s) && !s.open
    ensures !Step(env, s, RequestOpen(listTop)).allowSelect
    ensures Run(env, s, [RequestOpen(listTop), SelectTimerFired]).allowSelect
  {
    var es := [RequestOpen(listTop), SelectTimerFired];
    var armed := Step(env, s, es[0]);
    assert armed.selectTimerPending;
    assert es[1..] == [SelectTimerFired];
    assert Run(env, armed, es[1..]) == Run(env, Step(env, armed, SelectTimerFired), []);
  }

  /**
    The committed index changes only through a commit (`setSelectedIndex`) or a typeahead
    match: no other event sequence moves it.
  */
  lemma {:induction false} CommittedIndexOnlyFromTypeaheadOrCommit(env: Env, s: State, es: seq<Event>)
    requires forall i :: 0 <= i < |es| ==> !es[i].TypeaheadMatch? && !es[i].Commit?
    ensures Run(env, s, es).selectedIndex == s.selectedIndex
    decreases |es|
  {
    if es != [] {
      CommittedIndexOnlyFromTypeaheadOrCommit(env, Step(env, s, es[0]), es[1..]);
    }
  }

  // ---------------------------------------------------------------------------
  // Closing and re-opening
  // ---------------------------------------------------------------------------

  /**
    However a session ends, it leaves nothing behind: two open selects with the same
    committed index are in the same state once closed, whatever else they went through.
  */
  lemma CloseForgetsSession(env: Env, s: State, e: Event, t: State, f: Event)
    requires s.open && !Step(env, s, e).open
    requires t.open && !Step(env, t, f).open
    requires s.selectedIndex == t.selectedIndex
    ensures Step(env, s, e) == Step(env, t, f)
  {
  }

  /**
    Re-opening after any close starts a fresh anchored session: inner strategy at the
    committed index with no offset, the timer armed, and the scroll position (hence the up
    arrow) taken from the list as it is measured on opening.
  */
  lemma ReopenStartsAnchored(env: Env, s: State, e: Event, listTop: Option<real>,
                             floating: Option<Metrics>)
    requires s.open && !Step(env, s, e).open
    ensures var r := Step(env, Step(env, s, e), RequestOpen(listTop));
            && r.open && r.selectTimerPending && !r.allowSelect
            && r.activeIndex == None && !r.controlledScrolling && !r.isMouseOutside
            && r.scrollTop == listTop.GetOr(0.0)
            && Config(env, r).middleware[0]
               == Inner(s.selectedIndex, 0.0, InnerPadding, MinItemsVisible(env.touch),
                        ReferenceOverflowThreshold)
            && (StateArrows(env, r, floating).canScrollUp <==>
                listTop.GetOr(0.0) > env.scrollArrowThreshold)
  {
  }

  /** Closing twice is closing once. */
  lemma CloseIsIdempotent(env: Env, s: State)
    ensures var c := Step(env, s, RequestClose);
            Step(env, c, RequestClose) == c
  {
  }

  /**
    A closed select has no document listeners and no pending timer: any sequence of
    document pointer-downs, mouse-ups, timer firings and close requests leaves it as it is.
  */
  lemma {:induction false} ClosedIgnoresDocumentEvents(env: Env, s: State, es: seq<Event>)
    requires SessionInvariant(s) && !s.open
    requires forall i :: 0 <= i < |es| ==>
      es[i].DocumentPointerDown? || es[i].DocumentMouseUp? || es[i].SelectTimerFired?
      || es[i].RequestClose?
    ensures Run(env, s, es) == s
    decreases |es|
  {
    if es != [] {
      assert Step(env, s, es[0]) == s;
      ClosedIgnoresDocumentEvents(env, s, es[1..]);
    }
  }

  // ---------------------------------------------------------------------------
  // Outside dismissal and pointer tracking
  // ---------------------------------------------------------------------------

  /** A document pointer-down closes the select exactly when it is open and the target is outside. */
  lemma OutsidePointerDownCloses(env: Env, s: State, inside: bool)
    ensures var r := Step(env, s, DocumentPointerDown(inside));
            && (r.open != s.open <==> s.open && !inside)
            && (s.open && !inside ==> SessionReset(r) && !r.controlledScrolling)
            && (!(s.open && !inside) ==> r == s)
  {
  }

  /** The pointer handlers of the floating list track whether the mouse is outside it. */
  lemma PointerTracking(env: Env, s: State)
    ensures Step(env, s, FloatingPointerLeave).isMouseOutside
    ensures !Step(env, s, FloatingPointerEnter).isMouseOutside
    ensures !Step(env, s, FloatingPointerMove).isMouseOutside
    ensures !Step(env, s, FloatingPointerEnter).controlledScrolling
    ensures !Step(env, s, FloatingPointerMove).controlledScrolling
    ensures Step(env, s, FloatingKeyDown).controlledScrolling
    ensures Step(env, s, FloatingPointerLeave).open == s.open
    ensures Step(env, s, FloatingKeyDown).open == s.open
  {
  }

  /** A document mouse-up closes the select exactly when it is open and the mouse has left the list. */
  lemma MouseUpClosesWhenOutside(env: Env, s: State)
    requires env.webClient
    ensures var r := Step(env, s, DocumentMouseUp);
            && (r.open != s.open <==> s.open && s.isMouseOutside)
            && (!(s.open && s.isMouseOutside) ==> r == s)
  {
  }

  /** Off the web client no mouse-up listener is installed. */
  lemma MouseUpIgnoredOffWeb(env: Env, s: State)
    requires !env.webClient
    ensures Step(env, s, DocumentMouseUp) == s
  {
  }

  /** Drag-release dismissal: leaving the list and releasing closes; coming back first does not. */
  lemma DragReleaseDismiss(env: Env, s: State)
    requires env.webClient && s.open
    ensures !Run(env, s, [FloatingPointerLeave, DocumentMouseUp]).open
    ensures Run(env, s, [FloatingPointerLeave, FloatingPointerEnter, DocumentMouseUp]).open
  {
    var leave := [FloatingPointerLeave, DocumentMouseUp];
    assert leave[1..] == [DocumentMouseUp];
    var back := [FloatingPointerLeave, FloatingPointerEnter, DocumentMouseUp];
    assert back[1..] == [FloatingPointerEnter, DocumentMouseUp];
    assert back[1..][1..] == [DocumentMouseUp];
  }

  // ---------------------------------------------------------------------------
  // Trigger keys and typeahead
  // ---------------------------------------------------------------------------

  /** Enter always opens; Space opens unless typing; any other key changes nothing. */
  lemma TriggerKeyOpens(env: Env, s: State, key: string, typing: bool, listTop: Option<real>)
    ensures var r := Step(env, s, TriggerKeyDown(key, typing, listTop));
            && (key == EnterKey ==> r.open)
            && (key == SpaceKey ==> (r.open <==> s.open || !typing))
            && (key != EnterKey && key != SpaceKey ==> r == s)
            && (s.open ==> r == s)
            && (!s.open && r.open ==> r.selectTimerPending && r.scrollTop == listTop.GetOr(0.0)
                                       && r.activeIndex == s.activeIndex)
  {
  }

  /** A typeahead match highlights while open and pre-selects while closed. */
  lemma TypeaheadRouting(env: Env, s: State, i: nat)
    ensures var r := Step(env, s, TypeaheadMatch(i));
            && (s.open ==> r.activeIndex == Some(i) && r.selectedIndex == s.selectedIndex)
            && (!s.open ==> r.selectedIndex == Some(i) && r.activeIndex == s.activeIndex)
            && r.open == s.open
  {
  }

  // ---------------------------------------------------------------------------
  // Scroll arrows
  // ---------------------------------------------------------------------------

  /** A scroll event is reflected in the arrows by the same transition. */
  lemma ScrollUpdatesArrows(env: Env, s: State, top: real, m: Metrics)
    requires s.open
    ensures var a := StateArrows(env, Step(env, s, FloatingScroll(top)), Some(m));
            && (a.canScrollUp <==> top > env.scrollArrowThreshold)
            && (a.canScrollDown <==> top < m.scrollHeight - m.clientHeight - env.scrollArrowThreshold)
  {
  }

  /** Both arrows show only when the scroll range exceeds twice the threshold. */
  lemma BothArrowsNeedRoom(open: bool, top: real, m: Metrics, threshold: real)
    requires var a := ScrollArrows(open, top, Some(m), threshold); a.canScrollUp && a.canScrollDown
    ensures m.scrollHeight - m.clientHeight > 2.0 * threshold
  {
  }

  /** Scrolling further down never hides the up arrow and never reveals the down arrow. */
  lemma ArrowsMonotone(open: bool, top: real, top': real, floating: Option<Metrics>, threshold: real)
    requires top <= top'
    ensures ScrollArrows(open, top, floating, threshold).canScrollUp ==>
            ScrollArrows(open, top', floating, threshold).canScrollUp
    ensures ScrollArrows(open, top', floating, threshold).canScrollDown ==>
            ScrollArrows(open, top, floating, threshold).canScrollDown
  {
  }

  // ---------------------------------------------------------------------------
  // Middleware chain
  // ---------------------------------------------------------------------------

  /** Exactly one positioning strategy is in the chain. */
  lemma OneStrategyAtATime(fallback: bool, touch: bool, index: Option<nat>, offset: real, pad: real)
    ensures var r := Middlewares(fallback, touch, index, offset, pad);
            && (fallback <==> exists k :: 0 <= k < |r| && IsFallbackEntry(r[k]))
            && (!fallback <==> exists k :: 0 <= k < |r| && r[k].Inner?)
  {
    var r := Middlewares(fallback, touch, index, offset, pad);
    if fallback {
      assert IsFallbackEntry(r[0]);
      assert forall k :: 0 <= k < |r| ==> !r[k].Inner?;
    } else {
      assert r[0].Inner?;
      assert forall k :: 0 <= k < |r| ==> !IsFallbackEntry(r[k]);
    }
  }

  /** In fallback mode the inner offset and the selected index play no part. */
  lemma FallbackIgnoresInnerState(touch: bool, i: Option<nat>, o: real, i': Option<nat>, o': real, pad: real)
    ensures Middlewares(true, touch, i, o, pad) == Middlewares(true, touch, i', o', pad)
  {
  }

  /**
    The chain loses nothing that matters: equal chains come from the same mode, modality
    and padding, and, in inner mode, the same index and offset.
  */
  lemma MiddlewaresDetermineInputs(f: bool, t: bool, i: Option<nat>, o: real, p: real,
                                   f': bool, t': bool, i': Option<nat>, o': real, p': real)
    requires Middlewares(f, t, i, o, p) == Middlewares(f', t', i', o', p')
    ensures f == f' && t == t' && p == p'
    ensures !f ==> i == i' && o == o'
  {
    var r := Middlewares(f, t, i, o, p);
    assert r[|r| - 1] == Size(p) && r[|r| - 1] == Size(p');
    assert r[0].Inner? <==> !f;
    assert r[0].Inner? <==> !f';
  }

  /**
    The list's width and height cap are those of the last size-fit run — the trigger's
    width and the available height — unless the caller's style sets them, in which case
    the caller wins.
  */
  lemma ListTakesLastSizeFit(strategy: PositionStrategy, x: Option<real>, y: Option<real>,
                             input: SizeInput, caller: StyleProps)
    ensures var r := ListStyleOf(strategy, x, y, Some(SizeFit(input)), caller);
            && r.width == (if caller.width.Some? then caller.width else Some(input.reference.width))
            && r.maxHeight == (if caller.maxHeight.Some? then caller.maxHeight
                               else Some(input.availableHeight))
  {
  }

  /** Before any size-fit has run, and with no caller style, the list has no width or height cap. */
  lemma NoCapBeforeSizeFit(strategy: PositionStrategy, x: Option<real>, y: Option<real>)
    ensures var r := ListStyleOf(strategy, x, y, None, NoStyle);
            r.width == None && r.maxHeight == None && r.position == strategy && r.top == y && r.left == x
  {
  }

  /** Ignored inner-offset changes: the hook is disabled in fallback mode. */
  lemma InnerOffsetFrozenInFallback(env: Env, s: State, o: real)
    requires s.fallback
    ensures Step(env, s, InnerOffsetChange(o)) == s
  {
  }

  // ---------------------------------------------------------------------------
  // Render decision
  // ---------------------------------------------------------------------------

  /** The content renders nothing exactly in sheet mode while closed. */
  lemma RendersNothingIff(native: bool, sheet: bool, open: bool, touch: bool, z: Option<int>,
                          ov: SelectContent.FocusScopeOverrides)
    ensures SelectContent.Decide(native, sheet, open, touch, z, ov).Nothing? <==> !native && sheet && !open
  {
  }

  /**
    Without caller overrides the portal's overlay and focus trap move together: it captures
    pointer events exactly when it traps focus, locks scroll only then, and always loops.
  */
  lemma PortalFlagsAgree(open: bool, touch: bool, z: Option<int>)
    ensures var r := SelectContent.Decide(false, false, open, touch, z, SelectContent.NoOverrides);
            && r.Portal?
            && r.pointerEventsAuto == r.trapped
            && (r.lockScroll ==> r.pointerEventsAuto)
            && r.loop
            && (z == None ==> r.zIndex == 1000)
  {
  }
}
