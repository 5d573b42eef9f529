/**
 * The page's interactive state and how each user or host event changes it:
 * the detail toggle, the waitlist modal, the Escape / scroll-lock effect
 * and the copy buttons with their revert timers.
 *
 * React batches the `set…` calls of one handler into one render, after
 * which the `[waitlistOpen]` effect runs if `waitlistOpen` changed. Every
 * event below is therefore "run the handlers, then commit the effect".
 * Time is an integer number of milliseconds supplied by the host.
 */
module Controller {
  import opened Wrappers
  import opened JsStrings
  import WaitlistContact
  import DetailFilter

  /** The `copied` state: `null | "email" | "template"`; `None` is `null`. */
  datatype CopyKind = Email | Template

  /** Delay, in milliseconds, after which a successful copy's "Copied" label reverts. */
  const RevertDelay: int := 1400

  /**
   * The page state.
   * - `fullDetails`, `open`, `copied`: the three `useState` values.
   * - `overflowHidden`: whether `document.body.style.overflow` is `"hidden"`.
   * - `listeners`: the keydown listeners on `document`, each named by the
   *   effect run that registered it.
   * - `effectRun`, `effectOpen`: the number of the last effect run and the
   *   `waitlistOpen` it ran for; its cleanup is still pending.
   * - `now`: the clock.
   * - `pendingReverts`: the deadlines of the armed `setTimeout` reverts,
   *   in the order they were armed. None is ever cancelled; timers with the
   *   same delay fire in the order they were armed.
   * - `pendingWrites`: the clipboard writes that have not settled yet.
   */
  datatype State = State(
    fullDetails: bool,
    open: bool,
    copied: Option<CopyKind>,
    overflowHidden: bool,
    listeners: set<nat>,
    effectRun: nat,
    effectOpen: bool,
    now: int,
    pendingReverts: seq<int>,
    pendingWrites: multiset<CopyKind>)

  /** The state right after mount: everything off, and the first effect run has seen a closed modal. */
  function Initial(now: int): State {
    State(false, false, None, false, {}, 1, false, now, [], multiset{})
  }

  /**
   * What the effect guarantees once it has run for the current state, and
   * what the copy timers guarantee at all times: at most one listener,
   * belonging to the live run and present only for an open modal; the
   * body scroll locked exactly then; a shown "Copied" label always has a
   * revert armed; the deadlines in arming order, none further away than
   * one delay.
   */
  ghost predicate Inv(s: State) {
    && s.listeners == (if s.effectOpen then {s.effectRun} else {})
    && s.overflowHidden == s.effectOpen
    && (s.copied.Some? ==> s.pendingReverts != [])
    && (forall i, j :: 0 <= i < j < |s.pendingReverts| ==> s.pendingReverts[i] <= s.pendingReverts[j])
    && (forall i :: 0 <= i < |s.pendingReverts| ==> s.pendingReverts[i] <= s.now + RevertDelay)
  }

  /** `Inv`, and the effect has caught up with `waitlistOpen`. */
  ghost predicate Settled(s: State) {
    Inv(s) && s.effectOpen == s.open
  }

  // ---------------------------------------------------------------------
  // Handlers: the state updates of one handler, before React re-renders.
  // ---------------------------------------------------------------------

  /** `openWaitlist` */
  function OpenWaitlist(s: State): State {
    s.(copied := None, open := true)
  }

  /** `closeWaitlist` */
  function CloseWaitlist(s: State): State {
    s.(copied := None, open := false)
  }

  /** `setShowFullDetails((v) => !v)` */
  function ToggleDetails(s: State): State {
    s.(fullDetails := !s.fullDetails)
  }

  /** A copy button's click: `writeText` starts and has not settled yet. */
  function StartCopy(s: State, kind: CopyKind): State {
    s.(pendingWrites := s.pendingWrites + multiset{kind})
  }

  /** The text a copy button writes: the contact address or the request template. */
  function ClipboardText(kind: CopyKind): JsString {
    match kind
    case Email => WaitlistContact.ContactEmail
    case Template => WaitlistContact.WaitlistTemplate
  }

  /**
   * The rest of `copyToClipboard` once `writeText` has settled: on success
   * the label shows `kind` and a revert is armed one delay from now; on
   * failure the label is cleared and nothing is armed. A write that is not
   * in flight settles nothing.
   */
  function SettleCopy(s: State, kind: CopyKind, ok: bool): State {
    if kind !in s.pendingWrites then s
    else if ok then
      s.(pendingWrites := s.pendingWrites - multiset{kind}, copied := Some(kind),
         pendingReverts := s.pendingReverts + [s.now + RevertDelay])
    else s.(pendingWrites := s.pendingWrites - multiset{kind}, copied := None)
  }

  /**
   * The earliest armed revert fires once it is due: `setCopied(null)`,
   * whichever copy armed it. With nothing due, nothing fires.
   */
  function FireRevert(s: State): State {
    if s.pendingReverts != [] && s.pendingReverts[0] <= s.now then
      s.(copied := None, pendingReverts := s.pendingReverts[1..])
    else s
  }

  /** The clock moves forward; it never moves back. */
  function AdvanceClock(s: State, time: int): State {
    if s.now <= time then s.(now := time) else s
  }

  /**
   * The `[waitlistOpen]` effect after a render: if `waitlistOpen` changed,
   * the last run's cleanup removes its listener and clears the overflow,
   * then a new run registers its own listener and hides the overflow when
   * the modal is open, or clears the overflow when it is closed.
   */
  function CommitEffect(s: State): State {
    if s.open == s.effectOpen then s
    else
      var run := s.effectRun + 1;
      var cleaned := s.(listeners := s.listeners - {s.effectRun}, overflowHidden := false);
      if s.open then cleaned.(effectRun := run, effectOpen := true, listeners := cleaned.listeners + {run}, overflowHidden := true)
      else cleaned.(effectRun := run, effectOpen := false, overflowHidden := false)
  }

  // ---------------------------------------------------------------------
  // The modal's click handling.
  // ---------------------------------------------------------------------

  /**
   * Where a click inside the open modal can land: the backdrop, the panel
   * itself (its text), or one of the panel's controls.
   */
  datatype ModalTarget =
    | Backdrop
    | Panel
    | CloseButton
    | CopyEmailButton
    | CopyTemplateButton
    | EmailLink
    | NotNowButton

  /** The elements a click on `t` bubbles through, from `t` up to the backdrop. */
  function BubblePath(t: ModalTarget): seq<ModalTarget> {
    match t
    case Backdrop => [Backdrop]
    case Panel => [Panel, Backdrop]
    case _ => [t, Panel, Backdrop]
  }

  /** The panel's handler calls `e.stopPropagation()`. */
  predicate StopsPropagation(t: ModalTarget) {
    t == Panel
  }

  /** The elements whose handlers a bubbling click runs: up to and including the first that stops it. */
  function Reached(path: seq<ModalTarget>): seq<ModalTarget>
    decreases |path|
  {
    if path == [] then []
    else if StopsPropagation(path[0]) then [path[0]]
    else [path[0]] + Reached(path[1..])
  }

  /** The effect of one element's `onClick` on the state. The e-mail link only navigates. */
  function RunHandler(s: State, t: ModalTarget): State {
    match t
    case Backdrop => CloseWaitlist(s)
    case Panel => s
    case CloseButton => CloseWaitlist(s)
    case CopyEmailButton => StartCopy(s, Email)
    case CopyTemplateButton => StartCopy(s, Template)
    case EmailLink => s
    case NotNowButton => CloseWaitlist(s)
  }

  /** The handlers of `ts`, run in order. */
  function RunHandlers(s: State, ts: seq<ModalTarget>): State
    decreases |ts|
  {
    if ts == [] then s
    else RunHandler(RunHandlers(s, ts[..|ts| - 1]), ts[|ts| - 1])
  }

  /** The clipboard write a click on `t` starts, if any. */
  function CopyRequest(t: ModalTarget): Option<CopyKind> {
    match t
    case CopyEmailButton => Some(Email)
    case CopyTemplateButton => Some(Template)
    case _ => None
  }

  /** The text a click on `t` hands to `writeText`, if any. */
  function CopyText(t: ModalTarget): Option<JsString> {
    match CopyRequest(t)
    case Some(kind) => Some(ClipboardText(kind))
    case None => None
  }

  /** The text handed to `writeText` by the last copy button among `ts`. */
  function LastCopyText(ts: seq<ModalTarget>): Option<JsString>
    decreases |ts|
  {
    if ts == [] then None
    else if CopyText(ts[|ts| - 1]).Some? then CopyText(ts[|ts| - 1])
    else LastCopyText(ts[..|ts| - 1])
  }

  /** The button that copies `kind`. */
  function CopyButton(kind: CopyKind): ModalTarget {
    match kind
    case Email => CopyEmailButton
    case Template => CopyTemplateButton
  }

  /** A click on `t`; the modal is only rendered, and so clickable, while open. */
  function ClickModal(s: State, t: ModalTarget): State {
    if s.open then CommitEffect(RunHandlers(s, Reached(BubblePath(t)))) else s
  }

  // ---------------------------------------------------------------------
  // Events.
  // ---------------------------------------------------------------------

  datatype Event =
    | ToggleClicked               // either "Toggle Full Details" button
    | JoinClicked                 // any "Join" / "Get Pro (Waitlist)" button
    | GetProClicked               // the header's "Get Pro" link
    | KeyPressed(key: string)     // a keydown on `document`
    | ModalClicked(target: ModalTarget)
    | ClipboardSettled(kind: CopyKind, ok: bool)
    | TimerFired
    | ClockAdvanced(time: int)

  /** The key whose keydown closes the modal. */
  const EscapeKey: string := "Escape"

  /**
   * A keydown reaches the registered listeners; each closes the modal on
   * Escape. With no listener registered the key does nothing.
   */
  function PressKey(s: State, key: string): State {
    if s.listeners != {} && key == EscapeKey then CommitEffect(CloseWaitlist(s)) else s
  }

  /**
   * One event. `hasGumroad` is the routing decision of the header link:
   * with a checkout URL the click navigates away and the state is left
   * as it is; otherwise the default is prevented and the modal opens.
   */
  function Step(s: State, hasGumroad: bool, e: Event): State {
    match e
    case ToggleClicked => CommitEffect(ToggleDetails(s))
    case JoinClicked => CommitEffect(OpenWaitlist(s))
    case GetProClicked => if hasGumroad then s else CommitEffect(OpenWaitlist(s))
    case KeyPressed(key) => PressKey(s, key)
    case ModalClicked(t) => ClickModal(s, t)
    case ClipboardSettled(kind, ok) => CommitEffect(SettleCopy(s, kind, ok))
    case TimerFired => CommitEffect(FireRevert(s))
    case ClockAdvanced(time) => AdvanceClock(s, time)
  }

  /** A sequence of events, in order. */
  function Run(s: State, hasGumroad: bool, es: seq<Event>): State
    decreases |es|
  {
    if es == [] then s else Run(Step(s, hasGumroad, es[0]), hasGumroad, es[1..])
  }
}
