/**
 * The `Home` component as an object: its state and the document state
 * its effect writes are fields, its handlers are methods that update them
 * in place. Each event method is proved to do what `Controller.Step`
 * says, so every property proved of the controller holds of the page.
 */
module Page {
  import opened Wrappers
  import opened JsStrings
  import opened CtaRouting
  import opened Controller
  import ControllerProperties

  class Home {
    /** `hasGumroad` and `proHref`, fixed when the page is built. */
    const hasGumroad: bool
    const proHref: JsString

    var fullDetails: bool
    var open: bool
    var copied: Option<CopyKind>
    var overflowHidden: bool
    var listeners: set<nat>
    var effectRun: nat
    var effectOpen: bool
    var now: int
    var pendingReverts: seq<int>
    var pendingWrites: multiset<CopyKind>

    ghost function State(): Controller.State
      reads this
    {
      Controller.State(fullDetails, open, copied, overflowHidden, listeners, effectRun, effectOpen,
                       now, pendingReverts, pendingWrites)
    }

    ghost predicate Valid()
      reads this
    {
      Settled(State())
    }

    /**
     * Mounting the page: the checkout link is resolved from the trimmed
     * environment value, the state starts empty and the first effect run
     * sees a closed modal.
     */
    constructor(parse: UrlParser, env: Option<JsString>, startTime: int)
      ensures Valid() && State() == Initial(startTime)
      ensures hasGumroad == HasGumroad(parse, env) && proHref == ProHref(parse, env)
    {
      hasGumroad := HasGumroad(parse, env);
      proHref := ProHref(parse, env);
      fullDetails := false;
      open := false;
      copied := None;
      overflowHidden := false;
      listeners := {};
      effectRun := 1;
      effectOpen := false;
      now := startTime;
      pendingReverts := [];
      pendingWrites := multiset{};
    }

    /** `openWaitlist` */
    method OpenWaitlist()
      modifies this
      ensures State() == Controller.OpenWaitlist(old(State()))
    {
      copied := None;
      open := true;
    }

    /** `closeWaitlist` */
    method CloseWaitlist()
      modifies this
      ensures State() == Controller.CloseWaitlist(old(State()))
    {
      copied := None;
      open := false;
    }

    /** The `[waitlistOpen]` effect: cleanup of the last run, then the new run. */
    method CommitEffect()
      modifies this
      ensures State() == Controller.CommitEffect(old(State()))
    {
      if open != effectOpen {
        listeners := listeners - {effectRun};
        overflowHidden := false;
        effectRun := effectRun + 1;
        effectOpen := open;
        if open {
          listeners := listeners + {effectRun};
          overflowHidden := true;
        }
      }
    }

    /** Either "Toggle Full Details" button. */
    method ClickToggle()
      requires Valid()
      modifies this
      ensures Valid() && State() == Step(old(State()), hasGumroad, ToggleClicked)
    {
      ControllerProperties.StepKeepsSettled(State(), hasGumroad, ToggleClicked);
      fullDetails := !fullDetails;
      CommitEffect();
    }

    /** Any "Join" button. */
    method ClickJoin()
      requires Valid()
      modifies this
      ensures Valid() && State() == Step(old(State()), hasGumroad, JoinClicked)
    {
      ControllerProperties.StepKeepsSettled(State(), hasGumroad, JoinClicked);
      OpenWaitlist();
      CommitEffect();
    }

    /**
     * The header's "Get Pro" link: with a checkout URL the browser follows
     * `proHref`; otherwise the default is prevented and the modal opens.
     */
    method ClickGetPro() returns (navigateTo: Option<JsString>)
      requires Valid()
      modifies this
      ensures Valid() && State() == Step(old(State()), hasGumroad, GetProClicked)
      ensures navigateTo == (if hasGumroad then Some(proHref) else None)
    {
      ControllerProperties.StepKeepsSettled(State(), hasGumroad, GetProClicked);
      if hasGumroad {
        navigateTo := Some(proHref);
      } else {
        navigateTo := None;
        OpenWaitlist();
        CommitEffect();
      }
    }

    /** A keydown on the document; the registered listener closes the modal on Escape. */
    method PressKey(key: string)
      requires Valid()
      modifies this
      ensures Valid() && State() == Step(old(State()), hasGumroad, KeyPressed(key))
    {
      ControllerProperties.StepKeepsSettled(State(), hasGumroad, KeyPressed(key));
      if listeners != {} && key == EscapeKey {
        CloseWaitlist();
        CommitEffect();
      }
    }

    /** One element's `onClick`; a copy button also hands back the text it writes. */
    method RunHandler(t: ModalTarget) returns (request: Option<JsString>)
      modifies this
      ensures State() == Controller.RunHandler(old(State()), t)
      ensures request == CopyText(t)
    {
      request := None;
      match t
      case Backdrop => CloseWaitlist();
      case Panel =>
      case CloseButton => CloseWaitlist();
      case CopyEmailButton =>
        pendingWrites := pendingWrites + multiset{Email};
        request := Some(ClipboardText(Email));
      case CopyTemplateButton =>
        pendingWrites := pendingWrites + multiset{Template};
        request := Some(ClipboardText(Template));
      case EmailLink =>
      case NotNowButton => CloseWaitlist();
    }

    /**
     * Dispatches a click along `path`, from the target outwards, running
     * each element's handler until one stops the propagation. Returns the
     * text a copy button handed to the clipboard, if any.
     */
    method Bubble(path: seq<ModalTarget>) returns (clipboardText: Option<JsString>)
      modifies this
      ensures State() == RunHandlers(old(State()), Reached(path))
      ensures clipboardText == LastCopyText(Reached(path))
    {
      ghost var s0 := State();
      ghost var visited: seq<ModalTarget> := [];
      clipboardText := None;
      var rest := path;
      var stopped := false;
      while rest != [] && !stopped
        invariant Reached(path) == if stopped then visited else visited + Reached(rest)
        invariant State() == RunHandlers(s0, visited)
        invariant clipboardText == LastCopyText(visited)
        decreases |rest|
      {
        var element := rest[0];
        ControllerProperties.RunHandlersSnoc(s0, visited, element);
        ControllerProperties.LastCopyTextSnoc(visited, element);
        ControllerProperties.ReachedCons(visited, rest);
        var request := RunHandler(element);
        if request.Some? {
          clipboardText := request;
        }
        stopped := StopsPropagation(element);
        visited := visited + [element];
        rest := rest[1..];
      }
      if !stopped {
        assert Reached(rest) == [] && visited + [] == visited;
      }
    }

    /**
     * A click in the modal, which is only there while open. Returns the
     * text handed to the clipboard, if a copy button was clicked.
     */
    method ClickModal(t: ModalTarget) returns (clipboardText: Option<JsString>)
      requires Valid()
      modifies this
      ensures Valid() && State() == Step(old(State()), hasGumroad, ModalClicked(t))
      ensures clipboardText == (if old(open) then CopyText(t) else None)
    {
      ControllerProperties.StepKeepsSettled(State(), hasGumroad, ModalClicked(t));
      clipboardText := None;
      if open {
        clipboardText := Bubble(BubblePath(t));
        ControllerProperties.CopyTextOfClick(t);
        CommitEffect();
      }
    }

    /**
     * The rest of `copyToClipboard` once `writeText` has settled: the
     * label and a revert on success, a cleared label on failure. A write
     * that is not in flight settles nothing.
     */
    method SettleCopy(kind: CopyKind, ok: bool)
      modifies this
      ensures State() == Controller.SettleCopy(old(State()), kind, ok)
    {
      if kind in pendingWrites {
        var remaining := pendingWrites - multiset{kind};
        if ok {
          var deadline := now + RevertDelay;
          pendingWrites, copied, pendingReverts := remaining, Some(kind), pendingReverts + [deadline];
        } else {
          pendingWrites, copied := remaining, None;
        }
      }
    }

    /** `writeText` settles, successfully or not, and React re-renders. */
    method SettleClipboard(kind: CopyKind, ok: bool)
      requires Valid()
      modifies this
      ensures Valid() && State() == Step(old(State()), hasGumroad, ClipboardSettled(kind, ok))
    {
      ControllerProperties.StepKeepsSettled(State(), hasGumroad, ClipboardSettled(kind, ok));
      SettleCopy(kind, ok);
      CommitEffect();
    }

    /** The earliest armed revert, if due: `setCopied(null)`, and the timer is used up. */
    method FireRevert()
      modifies this
      ensures State() == Controller.FireRevert(old(State()))
    {
      if pendingReverts != [] && pendingReverts[0] <= now {
        copied := None;
        pendingReverts := pendingReverts[1..];
      }
    }

    /** The earliest armed revert fires if it is due, and React re-renders. */
    method FireTimer()
      requires Valid()
      modifies this
      ensures Valid() && State() == Step(old(State()), hasGumroad, TimerFired)
    {
      ControllerProperties.StepKeepsSettled(State(), hasGumroad, TimerFired);
      FireRevert();
      CommitEffect();
    }

    /** The clock moves to `time`, unless that is in the past. */
    method AdvanceClock(time: int)
      requires Valid()
      modifies this
      ensures Valid() && State() == Step(old(State()), hasGumroad, ClockAdvanced(time))
    {
      ControllerProperties.StepKeepsSettled(State(), hasGumroad, ClockAdvanced(time));
      if now <= time {
        now := time;
      }
    }
  }
}
