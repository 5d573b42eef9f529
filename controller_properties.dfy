/**
 * What the page's event handling guarantees: the effect keeps the scroll
 * lock and the Escape listener in step with the modal, every way out of
 * the modal closes it, content clicks change nothing, and the copy label
 * always has a revert armed — though a stale revert can clear a newer
 * label early.
 */
module ControllerProperties {
  import opened Wrappers
  import opened Controller
  import DetailFilter

  /** The handlers leave the effect's bookkeeping alone and keep the timer invariant. */
  lemma RunHandlerKeepsInv(s: State, t: ModalTarget)
    requires Inv(s)
    ensures var r := RunHandler(s, t);
      && Inv(r)
      && r.effectOpen == s.effectOpen && r.effectRun == s.effectRun && r.now == s.now
      && r.fullDetails == s.fullDetails
  {
  }

  lemma {:induction false} RunHandlersKeepInv(s: State, ts: seq<ModalTarget>)
    requires Inv(s)
    ensures var r := RunHandlers(s, ts);
      && Inv(r)
      && r.effectOpen == s.effectOpen && r.effectRun == s.effectRun && r.now == s.now
      && r.fullDetails == s.fullDetails
    decreases |ts|
  {
    if ts != [] {
      RunHandlersKeepInv(s, ts[..|ts| - 1]);
      RunHandlerKeepsInv(RunHandlers(s, ts[..|ts| - 1]), ts[|ts| - 1]);
    }
  }

  /**
   * Committing the effect brings it in step with `waitlistOpen` and
   * touches nothing but the listeners and the overflow.
   */
  lemma CommitEffectSettles(s: State)
    requires Inv(s)
    ensures var r := CommitEffect(s);
      && Settled(r)
      && r.fullDetails == s.fullDetails && r.open == s.open && r.copied == s.copied
      && r.now == s.now && r.pendingReverts == s.pendingReverts && r.pendingWrites == s.pendingWrites
  {
  }

  /** A settled write appends the latest deadline, so the reverts stay in order and within one delay. */
  lemma SettleCopyKeepsInv(s: State, kind: CopyKind, ok: bool)
    requires Inv(s)
    ensures Inv(SettleCopy(s, kind, ok))
  {
    if kind in s.pendingWrites && ok {
      var d := s.now + RevertDelay;
      var rs := s.pendingReverts + [d];
      assert forall i :: 0 <= i < |s.pendingReverts| ==> rs[i] == s.pendingReverts[i];
      assert rs[|rs| - 1] == d;
    }
  }

  /** Firing the earliest revert keeps the rest in order. */
  lemma FireRevertKeepsInv(s: State)
    requires Inv(s)
    ensures Inv(FireRevert(s))
  {
  }

  /** Moving the clock forward keeps every deadline within one delay. */
  lemma AdvanceClockKeepsSettled(s: State, time: int)
    requires Settled(s)
    ensures Settled(AdvanceClock(s, time))
  {
  }

  /** Every event keeps the page settled. */
  lemma StepKeepsSettled(s: State, hasGumroad: bool, e: Event)
    requires Settled(s)
    ensures Settled(Step(s, hasGumroad, e))
  {
    match e
    case ToggleClicked =>
      CommitEffectSettles(ToggleDetails(s));
    case JoinClicked =>
      CommitEffectSettles(OpenWaitlist(s));
    case GetProClicked =>
      CommitEffectSettles(OpenWaitlist(s));
    case KeyPressed(key) =>
      CommitEffectSettles(CloseWaitlist(s));
    case ModalClicked(t) =>
      var ran := RunHandlers(s, Reached(BubblePath(t)));
      RunHandlersKeepInv(s, Reached(BubblePath(t)));
      CommitEffectSettles(ran);
    case ClipboardSettled(kind, ok) =>
      SettleCopyKeepsInv(s, kind, ok);
      CommitEffectSettles(SettleCopy(s, kind, ok));
    case TimerFired =>
      FireRevertKeepsInv(s);
      CommitEffectSettles(FireRevert(s));
    case ClockAdvanced(time) =>
      AdvanceClockKeepsSettled(s, time);
  }

  lemma {:induction false} RunKeepsSettled(s: State, hasGumroad: bool, es: seq<Event>)
    requires Settled(s)
    ensures Settled(Run(s, hasGumroad, es))
    decreases |es|
  {
    if es != [] {
      StepKeepsSettled(s, hasGumroad, es[0]);
      RunKeepsSettled(Step(s, hasGumroad, es[0]), hasGumroad, es[1..]);
    }
  }

  /**
   * Whatever happens after mount, the body scroll is locked exactly while
   * the modal is open, and at most one keydown listener is registered,
   * present exactly while the modal is open.
   */
  lemma ScrollLockFollowsModal(now: int, hasGumroad: bool, es: seq<Event>)
    ensures var s := Run(Initial(now), hasGumroad, es);
      && (s.overflowHidden <==> s.open)
      && |s.listeners| <= 1
      && (s.listeners != {} <==> s.open)
  {
    RunKeepsSettled(Initial(now), hasGumroad, es);
  }

  /**
   * Joining the waitlist opens the modal with no "Copied" label, locks the
   * scroll, registers one listener and leaves the detail view as it was;
   * joining again changes nothing.
   */
  lemma JoinOpensModal(s: State, hasGumroad: bool)
    requires Settled(s)
    ensures var r := Step(s, hasGumroad, JoinClicked);
      && Settled(r)
      && r.open && r.copied == None && r.fullDetails == s.fullDetails
      && r.overflowHidden && |r.listeners| == 1
      && r.now == s.now && r.pendingReverts == s.pendingReverts && r.pendingWrites == s.pendingWrites
      && Step(r, hasGumroad, JoinClicked) == r
  {
    CommitEffectSettles(OpenWaitlist(s));
  }

  /**
   * The "Get Pro (Waitlist)" buttons call `openWaitlist` directly: they open
   * the modal whatever the routing decision, while the header link with a
   * checkout URL leaves the page state alone.
   */
  lemma WaitlistButtonsIgnoreCheckout(s: State)
    requires Settled(s)
    ensures Step(s, true, JoinClicked) == Step(s, false, JoinClicked)
    ensures Step(s, true, JoinClicked).open
    ensures Step(s, true, GetProClicked) == s
  {
    CommitEffectSettles(OpenWaitlist(s));
  }

  /**
   * The header's "Get Pro": with a checkout URL the click leaves the page
   * state alone (the browser follows the link); without one it does
   * exactly what "Join" does.
   */
  lemma GetProOpensModalWithoutCheckout(s: State, hasGumroad: bool)
    ensures hasGumroad ==> Step(s, hasGumroad, GetProClicked) == s
    ensures !hasGumroad ==> Step(s, hasGumroad, GetProClicked) == Step(s, hasGumroad, JoinClicked)
    ensures !hasGumroad ==> Step(s, hasGumroad, GetProClicked).open
  {
  }

  /**
   * Escape closes an open modal, clears the label, unlocks the scroll and
   * removes the listener; on a closed modal, or for any other key, a
   * keydown changes nothing. A second Escape changes nothing either.
   */
  lemma EscapeClosesModal(s: State, hasGumroad: bool, key: string)
    requires Settled(s)
    ensures var r := Step(s, hasGumroad, KeyPressed(key));
      && (key == EscapeKey && s.open ==>
            !r.open && r.copied == None && !r.overflowHidden && r.listeners == {}
            && r.fullDetails == s.fullDetails && Step(r, hasGumroad, KeyPressed(key)) == r)
      && (key != EscapeKey || !s.open ==> r == s)
  {
    if key == EscapeKey && s.open {
      CommitEffectSettles(CloseWaitlist(s));
    }
  }

  /** The closing targets: the backdrop, "Close" and "Not now". */
  predicate ClosesModal(t: ModalTarget) {
    t == Backdrop || t == CloseButton || t == NotNowButton
  }

  /**
   * A click bubbles into the backdrop's handler only when it lands on the
   * backdrop itself: the panel stops every click inside it.
   */
  lemma {:induction false} BackdropOnlyFromOutside(t: ModalTarget)
    ensures Backdrop in Reached(BubblePath(t)) <==> t == Backdrop
  {
    if t != Backdrop && t != Panel {
      assert BubblePath(t)[1..] == [Panel, Backdrop];
      assert Reached(BubblePath(t)) == [t, Panel];
    }
  }

  /** The handlers a click on `t` runs, in order. */
  lemma ReachedHandlers(t: ModalTarget)
    ensures Reached(BubblePath(t)) == (if t == Backdrop || t == Panel then [t] else [t, Panel])
  {
    if t != Backdrop && t != Panel {
      assert BubblePath(t)[1..] == [Panel, Backdrop];
    }
  }

  /** Only the clicked element's own handler changes anything: the panel's handler just stops the click. */
  lemma ClickRunsOwnHandler(s: State, t: ModalTarget)
    ensures RunHandlers(s, Reached(BubblePath(t))) == RunHandler(s, t)
  {
    ReachedHandlers(t);
    var path := Reached(BubblePath(t));
    if t == Backdrop || t == Panel {
      assert path[..0] == [];
    } else {
      assert path[..1] == [t] && [t][..0] == [];
      assert RunHandlers(s, [t]) == RunHandler(s, t);
      assert RunHandlers(s, path) == RunHandler(RunHandlers(s, [t]), Panel);
    }
  }

  /** A click hands a text to the clipboard only when it lands on a copy button. */
  lemma CopyTextOfClick(t: ModalTarget)
    ensures LastCopyText(Reached(BubblePath(t))) == CopyText(t)
  {
    ReachedHandlers(t);
    LastCopyTextSnoc([], t);
    assert [] + [t] == [t];
    if t != Backdrop && t != Panel {
      LastCopyTextSnoc([t], Panel);
      assert [t] + [Panel] == [t, Panel];
    }
  }

  /** Bubbling one more element, after `visited`. */
  lemma ReachedCons(visited: seq<ModalTarget>, rest: seq<ModalTarget>)
    requires rest != []
    ensures visited + Reached(rest) ==
      if StopsPropagation(rest[0]) then visited + [rest[0]]
      else (visited + [rest[0]]) + Reached(rest[1..])
  {
  }

  /** Running one more handler. */
  lemma RunHandlersSnoc(s: State, ts: seq<ModalTarget>, t: ModalTarget)
    ensures RunHandlers(s, ts + [t]) == RunHandler(RunHandlers(s, ts), t)
  {
    assert (ts + [t])[..|ts|] == ts;
  }

  /** Looking at one more element for a copy request. */
  lemma LastCopyTextSnoc(ts: seq<ModalTarget>, t: ModalTarget)
    ensures LastCopyText(ts + [t]) == if CopyText(t).Some? then CopyText(t) else LastCopyText(ts)
  {
    assert (ts + [t])[..|ts|] == ts;
  }

  /**
   * A click in the open modal: it closes the modal iff it lands on a
   * closing target, and then clears the label and the scroll lock; a copy
   * button only starts its write; anything else in the panel changes
   * nothing.
   */
  lemma ModalClickOutcome(s: State, hasGumroad: bool, t: ModalTarget)
    requires Settled(s) && s.open
    ensures var r := Step(s, hasGumroad, ModalClicked(t));
      && (!r.open <==> ClosesModal(t))
      && (ClosesModal(t) ==>
            r.copied == None && !r.overflowHidden && r.listeners == {} && r.fullDetails == s.fullDetails)
      && (CopyRequest(t).Some? ==> r == s.(pendingWrites := s.pendingWrites + multiset{CopyRequest(t).value}))
      && (t == Panel || t == EmailLink ==> r == s)
  {
    if ClosesModal(t) {
      ClosingClick(s, hasGumroad, t);
      CommitEffectSettles(CloseWaitlist(s));
    } else {
      NonClosingClick(s, hasGumroad, t);
    }
  }

  lemma ClosingClick(s: State, hasGumroad: bool, t: ModalTarget)
    requires s.open && ClosesModal(t)
    ensures Step(s, hasGumroad, ModalClicked(t)) == CommitEffect(CloseWaitlist(s))
  {
    ClickRunsOwnHandler(s, t);
  }

  lemma NonClosingClick(s: State, hasGumroad: bool, t: ModalTarget)
    requires Settled(s) && s.open && !ClosesModal(t)
    ensures Step(s, hasGumroad, ModalClicked(t)) == RunHandler(s, t)
  {
    ClickRunsOwnHandler(s, t);
    assert CommitEffect(RunHandler(s, t)) == RunHandler(s, t);
  }

  /** With the modal closed there is nothing to click. */
  lemma ClosedModalIgnoresClicks(s: State, hasGumroad: bool, t: ModalTarget)
    requires !s.open
    ensures Step(s, hasGumroad, ModalClicked(t)) == s
  {
  }

  /**
   * The toggle flips the detail view and nothing else, so two toggles
   * restore the state, and with it the visible events.
   */
  lemma ToggleTwiceRestores(s: State, hasGumroad: bool)
    requires Settled(s)
    ensures var r := Step(s, hasGumroad, ToggleClicked);
      && r == s.(fullDetails := !s.fullDetails)
      && Step(r, hasGumroad, ToggleClicked) == s
      && DetailFilter.VisibleEvents(DetailFilter.AllEvents, Step(r, hasGumroad, ToggleClicked).fullDetails)
         == DetailFilter.VisibleEvents(DetailFilter.AllEvents, s.fullDetails)
  {
  }

  /**
   * A settled clipboard write: success shows its kind and arms exactly one
   * more revert, due one delay from now; failure clears the label and arms
   * nothing. Neither touches the modal or the detail view.
   */
  lemma CopySettles(s: State, hasGumroad: bool, kind: CopyKind, ok: bool)
    requires Settled(s) && kind in s.pendingWrites
    ensures var r := Step(s, hasGumroad, ClipboardSettled(kind, ok));
      && Settled(r)
      && r.pendingWrites == s.pendingWrites - multiset{kind}
      && r.open == s.open && r.fullDetails == s.fullDetails && r.now == s.now
      && (ok ==> r.copied == Some(kind) && r.pendingReverts == s.pendingReverts + [s.now + RevertDelay])
      && (!ok ==> r.copied == None && r.pendingReverts == s.pendingReverts)
  {
    CommitEffectSettles(SettleCopy(s, kind, ok));
  }

  /**
   * A due revert clears the label, whichever copy armed it, and is used
   * up; before the earliest deadline, nothing fires.
   */
  lemma RevertClearsAnyLabel(s: State, hasGumroad: bool)
    requires Settled(s)
    ensures var r := Step(s, hasGumroad, TimerFired);
      && (s.pendingReverts != [] && s.pendingReverts[0] <= s.now ==>
            r.copied == None && r.pendingReverts == s.pendingReverts[1..]
            && r.open == s.open && r.fullDetails == s.fullDetails)
      && (s.pendingReverts == [] || s.now < s.pendingReverts[0] ==> r == s)
  {
    CommitEffectSettles(FireRevert(s));
  }

  /**
   * A shown "Copied" label never stays for good: some armed revert will
   * clear it no later than one delay from now.
   */
  lemma LabelHasRevertArmed(s: State)
    requires Inv(s) && s.copied.Some?
    ensures exists d :: d in s.pendingReverts && d <= s.now + RevertDelay
  {
    var d := s.pendingReverts[0];
    assert d in s.pendingReverts && d <= s.now + RevertDelay;
  }

  /** Running events one at a time. */
  lemma RunCons(s: State, hasGumroad: bool, e: Event, es: seq<Event>)
    ensures Run(s, hasGumroad, [e] + es) == Run(Step(s, hasGumroad, e), hasGumroad, es)
  {
    assert ([e] + es)[1..] == es;
  }

  /** A copy button's click in the open modal only starts its write. */
  lemma ClickCopyButton(s: State, hasGumroad: bool, kind: CopyKind)
    requires Settled(s) && s.open
    ensures Step(s, hasGumroad, ModalClicked(CopyButton(kind))) == s.(pendingWrites := s.pendingWrites + multiset{kind})
  {
    ModalClickOutcome(s, hasGumroad, CopyButton(kind));
  }

  /** A write that succeeds: the whole new state. */
  lemma CopySucceeds(s: State, hasGumroad: bool, kind: CopyKind)
    requires Settled(s) && kind in s.pendingWrites
    ensures Step(s, hasGumroad, ClipboardSettled(kind, true))
         == s.(pendingWrites := s.pendingWrites - multiset{kind}, copied := Some(kind),
               pendingReverts := s.pendingReverts + [s.now + RevertDelay])
  {
    CommitEffectSettles(SettleCopy(s, kind, true));
  }

  /** A successful copy in the open modal: click the button, the write succeeds. */
  lemma CopyInOpenModal(s: State, hasGumroad: bool, kind: CopyKind)
    requires Settled(s) && s.open && s.pendingWrites == multiset{}
    ensures Run(s, hasGumroad, [ModalClicked(CopyButton(kind)), ClipboardSettled(kind, true)])
         == s.(copied := Some(kind), pendingReverts := s.pendingReverts + [s.now + RevertDelay])
  {
    var g := hasGumroad;
    var s1 := s.(pendingWrites := multiset{kind});
    ClickCopyButton(s, g, kind);
    assert s.pendingWrites + multiset{kind} == multiset{kind};
    assert Settled(s1);
    CopySucceeds(s1, g, kind);
    assert s1.pendingWrites - multiset{kind} == multiset{};
    RunCons(s, g, ModalClicked(CopyButton(kind)), [ClipboardSettled(kind, true)]);
    RunCons(s1, g, ClipboardSettled(kind, true), []);
  }

  /** Concatenated runs. */
  lemma {:induction false} RunAppend(s: State, hasGumroad: bool, es: seq<Event>, fs: seq<Event>)
    ensures Run(s, hasGumroad, es + fs) == Run(Run(s, hasGumroad, es), hasGumroad, fs)
    decreases |es|
  {
    if es == [] {
      assert es + fs == fs;
    } else {
      assert (es + fs)[0] == es[0] && (es + fs)[1..] == es[1..] + fs;
      RunAppend(Step(s, hasGumroad, es[0]), hasGumroad, es[1..], fs);
    }
  }

  /** Moving the clock forward changes nothing else. */
  lemma ClockAdvances(s: State, hasGumroad: bool, time: int)
    requires Settled(s) && s.now <= time
    ensures Step(s, hasGumroad, ClockAdvanced(time)) == s.(now := time)
    ensures Settled(s.(now := time))
  {
  }

  /** One event, a run, one event, a run. */
  lemma {:induction false} RunSplit(s: State, hasGumroad: bool, a: Event, xs: seq<Event>, b: Event, ys: seq<Event>)
    ensures Run(s, hasGumroad, [a] + xs + [b] + ys)
         == Run(Step(Run(Step(s, hasGumroad, a), hasGumroad, xs), hasGumroad, b), hasGumroad, ys)
  {
    var g := hasGumroad;
    assert [a] + xs + [b] + ys == [a] + (xs + ([b] + ys));
    RunCons(s, g, a, xs + ([b] + ys));
    RunAppend(Step(s, g, a), g, xs, [b] + ys);
    RunCons(Run(Step(s, g, a), g, xs), g, b, ys);
  }

  /** The page right after the first "Join" click, with the given clock, label and reverts. */
  function OpenedOnce(now: int, copied: Option<CopyKind>, reverts: seq<int>): State {
    State(false, true, copied, true, {2}, 2, true, now, reverts, multiset{})
  }

  lemma OpenFromInitial(t0: int, hasGumroad: bool)
    ensures Step(Initial(t0), hasGumroad, JoinClicked) == OpenedOnce(t0, None, [])
  {
    assert OpenWaitlist(Initial(t0)) == Initial(t0).(open := true);
  }

  lemma CopyEmailAfterOpen(t0: int, hasGumroad: bool)
    ensures Run(OpenedOnce(t0, None, []), hasGumroad, [ModalClicked(CopyEmailButton), ClipboardSettled(Email, true)])
         == OpenedOnce(t0, Some(Email), [t0 + 1400])
  {
    var s := OpenedOnce(t0, None, []);
    assert Settled(s);
    assert s.pendingReverts + [s.now + RevertDelay] == [t0 + 1400];
    CopyInOpenModal(s, hasGumroad, Email);
  }

  lemma CopyTemplateLater(t0: int, hasGumroad: bool)
    ensures Run(OpenedOnce(t0 + 1000, Some(Email), [t0 + 1400]), hasGumroad,
                [ModalClicked(CopyTemplateButton), ClipboardSettled(Template, true)])
         == OpenedOnce(t0 + 1000, Some(Template), [t0 + 1400, t0 + 2400])
  {
    var s := OpenedOnce(t0 + 1000, Some(Email), [t0 + 1400]);
    assert Settled(s);
    assert s.pendingReverts + [s.now + RevertDelay] == [t0 + 1400, t0 + 2400];
    CopyInOpenModal(s, hasGumroad, Template);
  }

  /** Copying the address at `t0` and the template 1000 ms later. */
  lemma CopyBothOneSecondApart(t0: int, hasGumroad: bool)
    ensures Run(Initial(t0), hasGumroad,
                [JoinClicked, ModalClicked(CopyEmailButton), ClipboardSettled(Email, true),
                 ClockAdvanced(t0 + 1000), ModalClicked(CopyTemplateButton), ClipboardSettled(Template, true)])
         == OpenedOnce(t0 + 1000, Some(Template), [t0 + 1400, t0 + 2400])
  {
    var g := hasGumroad;
    var copyEmail: seq<Event> := [ModalClicked(CopyEmailButton), ClipboardSettled(Email, true)];
    var copyTemplate: seq<Event> := [ModalClicked(CopyTemplateButton), ClipboardSettled(Template, true)];
    RunSplit(Initial(t0), g, JoinClicked, copyEmail, ClockAdvanced(t0 + 1000), copyTemplate);
    assert [JoinClicked] + copyEmail + [ClockAdvanced(t0 + 1000)] + copyTemplate
        == [JoinClicked, ModalClicked(CopyEmailButton), ClipboardSettled(Email, true),
            ClockAdvanced(t0 + 1000), ModalClicked(CopyTemplateButton), ClipboardSettled(Template, true)];
    OpenFromInitial(t0, g);
    CopyEmailAfterOpen(t0, g);
    ClockAdvances(OpenedOnce(t0, Some(Email), [t0 + 1400]), g, t0 + 1000);
    CopyTemplateLater(t0, g);
  }

  /**
   * The earlier revert is never cancelled: copying the address at `t0`
   * and the template 1000 ms later leaves two reverts armed, and the one
   * due at `t0 + 1400` clears the template's label after 400 ms instead
   * of 1400.
   */
  lemma StaleRevertClearsNewerLabel(t0: int, hasGumroad: bool)
    ensures var s := Run(Initial(t0), hasGumroad,
                         [JoinClicked, ModalClicked(CopyEmailButton), ClipboardSettled(Email, true),
                          ClockAdvanced(t0 + 1000), ModalClicked(CopyTemplateButton), ClipboardSettled(Template, true)]);
      && s.copied == Some(Template)
      && s.pendingReverts == [t0 + 1400, t0 + 2400]
      && var r := Run(s, hasGumroad, [ClockAdvanced(t0 + 1400), TimerFired]);
         r.copied == None && r.pendingReverts == [t0 + 2400]
  {
    var g := hasGumroad;
    CopyBothOneSecondApart(t0, g);
    assert Settled(OpenedOnce(t0 + 1000, Some(Template), [t0 + 1400, t0 + 2400]));
    var s := Run(Initial(t0), g,
                 [JoinClicked, ModalClicked(CopyEmailButton), ClipboardSettled(Email, true),
                  ClockAdvanced(t0 + 1000), ModalClicked(CopyTemplateButton), ClipboardSettled(Template, true)]);
    var s1 := Step(s, g, ClockAdvanced(t0 + 1400));
    StepKeepsSettled(s, g, ClockAdvanced(t0 + 1400));
    RevertClearsAnyLabel(s1, g);
    assert s1.pendingReverts[1..] == [t0 + 2400];
    RunCons(s, g, ClockAdvanced(t0 + 1400), [TimerFired]);
    RunCons(s1, g, TimerFired, []);
  }

  /** The address's write is still in flight when Escape closes the modal. */
  lemma EscapeWithWriteInFlight(t0: int, hasGumroad: bool)
    ensures var s1 := OpenedOnce(t0, None, []);
      && Step(s1, hasGumroad, ModalClicked(CopyEmailButton)) == s1.(pendingWrites := multiset{Email})
      && Step(s1.(pendingWrites := multiset{Email}), hasGumroad, KeyPressed(EscapeKey))
         == State(false, false, None, false, {}, 3, false, t0, [], multiset{Email})
  {
    var s1 := OpenedOnce(t0, None, []);
    assert Settled(s1);
    ClickCopyButton(s1, hasGumroad, Email);
    assert multiset{} + multiset{Email} == multiset{Email};
    var s2 := s1.(pendingWrites := multiset{Email});
    assert CloseWaitlist(s2) == s2.(open := false);
  }

  /** The late write settles on the closed modal. */
  lemma LateWriteSettles(t0: int, hasGumroad: bool)
    ensures Step(State(false, false, None, false, {}, 3, false, t0, [], multiset{Email}), hasGumroad, ClipboardSettled(Email, true))
         == State(false, false, Some(Email), false, {}, 3, false, t0, [t0 + 1400], multiset{})
  {
    var s := State(false, false, None, false, {}, 3, false, t0, [], multiset{Email});
    assert Settled(s);
    CopySucceeds(s, hasGumroad, Email);
    assert multiset{Email} - multiset{Email} == multiset{};
  }

  /**
   * A write that settles after the modal was closed still sets the label,
   * on a closed modal; reopening clears it.
   */
  lemma LateCopyLabelsClosedModal(t0: int, hasGumroad: bool)
    ensures var s := Run(Initial(t0), hasGumroad,
                         [JoinClicked, ModalClicked(CopyEmailButton), KeyPressed(EscapeKey), ClipboardSettled(Email, true)]);
      && !s.open && s.copied == Some(Email)
      && Step(s, hasGumroad, JoinClicked).copied == None
  {
    var g := hasGumroad;
    var s0 := Initial(t0);
    var s1 := OpenedOnce(t0, None, []);
    var s2 := s1.(pendingWrites := multiset{Email});
    var s3 := State(false, false, None, false, {}, 3, false, t0, [], multiset{Email});
    var s4 := State(false, false, Some(Email), false, {}, 3, false, t0, [t0 + 1400], multiset{});
    OpenFromInitial(t0, g);
    EscapeWithWriteInFlight(t0, g);
    LateWriteSettles(t0, g);
    RunCons(s0, g, JoinClicked, [ModalClicked(CopyEmailButton), KeyPressed(EscapeKey), ClipboardSettled(Email, true)]);
    RunCons(s1, g, ModalClicked(CopyEmailButton), [KeyPressed(EscapeKey), ClipboardSettled(Email, true)]);
    RunCons(s2, g, KeyPressed(EscapeKey), [ClipboardSettled(Email, true)]);
    RunCons(s3, g, ClipboardSettled(Email, true), []);
    assert OpenWaitlist(s4).copied == None;
  }
}
