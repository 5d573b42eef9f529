# Nexus Nebula landing page — a Dafny model of its controller

The landing page (`app/page.tsx`, the `Home` component) is mostly markup.
Its logic fits in a few functions, handlers and one effect, and that logic
is what this project models and proves:

- **Checkout routing.** `isValidUrl` and the `hasGumroad` / `proHref` decision
  decide where "Get Pro" leads. They read the trimmed `NEXT_PUBLIC_GUMROAD_URL`.
  The click handler prevents navigation and opens the waitlist modal when no
  usable checkout URL is configured.
- **The contact link.** `buildMailto` makes an RFC 6068 `mailto:` URI. Its
  subject and body are encoded with ECMAScript `encodeURIComponent`
  (ECMA-262, section 19.2.6.5), and the address is inserted as it is.
  `mailtoHref` applies it to the page's contact address, subject and request
  template.
- **The live-feed filter.** `visibleEvents` shows the fixed catalog in full,
  or only its `simple` channel. The "Toggle Full Details" buttons flip it.
- **The waitlist modal.** `openWaitlist` and `closeWaitlist` set the modal
  flag. The backdrop closes the modal, and clicks on the panel stop
  propagation.
- **The effect.** The `[waitlistOpen]` effect registers an Escape keydown
  listener and hides the body overflow while the modal is open, and its
  cleanup undoes both.
- **Copy feedback.** `copyToClipboard` writes to the clipboard and shows
  "Copied". It arms a 1400 ms `setTimeout` that clears the label.

Files:

| file | module | contents |
|---|---|---|
| `wrappers.dfy` | `Wrappers` | `Option` |
| `js_strings.dfy` | `JsStrings` | JavaScript strings as UTF-16 code units; `String.prototype.trim`; `Array.prototype.join` |
| `uri_component.dfy` | `UriComponent` | `encodeURIComponent` / `decodeURIComponent`, UTF-8, percent escapes |
| `mailto.dfy` | `Mailto` | `buildMailto` and a reader of the URIs it builds |
| `waitlist_contact.dfy` | `WaitlistContact` | the contact address, subject, template and `mailtoHref` |
| `cta_routing.dfy` | `CtaRouting` | `isValidUrl`, `hasGumroad`, `proHref`, the Get Pro click |
| `detail_filter.dfy` | `DetailFilter` | the event catalog and `visibleEvents` |
| `controller.dfy` | `Controller` | the page state and each event's effect on it, as functions |
| `controller_properties.dfy` | `ControllerProperties` | what the events guarantee |
| `page.dfy` | `Page` | class `Home`: the same state as fields, updated in place by the handlers |

Strings are sequences of UTF-16 code units, as in JavaScript. That lets the
model express the one failure of `buildMailto`: `encodeURIComponent` throws
a `URIError` on a lone surrogate. That outcome is modelled as `None`.

The parser behind `new URL(...)` is a parameter of type
`JsString -> Option<JsString>` that returns the protocol. Only one fact about
it is assumed, and only where a lemma needs it: the predicate
`FailsWithoutScheme`. It says that the empty string, and any string whose
first character is neither a C0 control, a space nor an ASCII letter, fails
to parse. The URL Standard's basic URL parser behaves this way when no base
URL is given.

Time is an integer number of milliseconds, supplied by the host through
`ClockAdvanced` events. Timers and clipboard writes are explicit pending
entries in the state, settled by `TimerFired` and `ClipboardSettled` events.

## Model

| member | source | states |
|---|---|---|
| JsStrings.Trim | app/page.tsx:33 | The result is the input minus a maximal leading run and a maximal trailing run of ECMAScript white space and line terminators, and a nonempty result starts and ends with neither |
| JsStrings.TrimIdempotent | app/page.tsx:33 | Trimming a trimmed value changes nothing |
| JsStrings.TrimKeepsUntrimmableEnds | app/page.tsx:33 | A value with no white space at either end is read unchanged |
| JsStrings.JoinHasNoSurrogates | app/page.tsx:42-54 | Joining lines that hold no surrogate code units, with a separator that holds none, gives text with none |
| UriComponent.EncodeDefinedIff | app/page.tsx:21-22 | encodeURIComponent returns a value exactly when the text has no lone surrogate, and throws otherwise |
| UriComponent.EncodeOutputForm | app/page.tsx:21-22 | Every encoded text is a sequence of unreserved characters and `%HH` triplets with upper-case hex digits |
| UriComponent.EncodeHasNoDelimiter | app/page.tsx:21-22 | An encoded text never holds `&`, `=`, `?`, `#`, space, CR or LF |
| UriComponent.Utf8RoundTrip | app/page.tsx:21-22 | The UTF-8 octets of a non-ASCII scalar value announce their own length and decode back to it |
| UriComponent.Utf16PairRoundTrip | app/page.tsx:21-22 | The code point of a surrogate pair encodes back to the same pair |
| UriComponent.DecodeEncode | app/page.tsx:21-22 | For every well-formed text, encoding succeeds and percent-decoding the result returns the text |
| Mailto.BuildMailto | app/page.tsx:20-24 | The link is built exactly when both subject and body are free of lone surrogates |
| Mailto.EmailInsertedRaw | app/page.tsx:20-24 | The address is not encoded: it follows `mailto:` verbatim and is ended by the `?` that opens the fields |
| Mailto.MailtoRoundTrip | app/page.tsx:20-24 | Reading a built link back gives the raw address and exactly two fields, `subject` and `body`, holding the original texts, when the address holds no `?` or `#` |
| WaitlistContact.TemplateIsWellFormed | app/page.tsx:42-54 | The request template has no lone surrogate |
| WaitlistContact.MailtoHrefDefined | app/page.tsx:56-62 | Building the page's link never throws, and the address, subject and template meet the round trip's conditions |
| CtaRouting.ValidUrlStartsLikeScheme | app/page.tsx:11-18 | A URL accepted as http(s) is nonempty and starts with a letter or with a character the parser strips, so the empty string is rejected |
| CtaRouting.ProHrefResolution | app/page.tsx:33-40 | `proHref` is `#waitlist` exactly when the trimmed URL is not valid; otherwise it is the trimmed URL, which is valid |
| CtaRouting.GetProNeverDead | app/page.tsx:177-184 | A click either navigates to `proHref`, a valid URL, or opens the waitlist, and it opens the waitlist exactly when `hasGumroad` is false |
| CtaRouting.BlankEnvFallsBack | app/page.tsx:33-34 | An unset, empty or all-white-space variable gives `#waitlist`, and the click opens the waitlist |
| CtaRouting.CheckoutUrlIsUsed | app/page.tsx:33-40 | A configured `https://pay.example/checkout` that parses as https is navigated to as it is |
| DetailFilter.SimpleEvents | app/page.tsx:80 | The filter keeps only `simple` events and never grows the list |
| DetailFilter.SimpleEventsMembership | app/page.tsx:80 | An event is in the Simple View exactly when it is in the catalog and on the `simple` channel |
| DetailFilter.SimpleEventsIsSubsequence | app/page.tsx:80 | The Simple View keeps catalog order |
| DetailFilter.SimpleEventsAppend | app/page.tsx:80 | Filtering a concatenation filters each part |
| DetailFilter.SimpleViewWithinFullView | app/page.tsx:78-81 | With the flag off the visible list is an order-preserving subsequence of the list with it on |
| DetailFilter.CatalogViews | app/page.tsx:64-81 | On the page's catalog, Simple View is the first four events and Full Details all seven |
| DetailFilter.TwoEventCatalog | app/page.tsx:78-81 | A catalog of one simple and one advanced event shows one event with the flag off and both with it on |
| ControllerProperties.CommitEffectSettles | app/page.tsx:122-138 | After the effect runs, the listener set is the live run's listener when open and empty when closed, overflow is hidden exactly when open, and no other state changes |
| ControllerProperties.StepKeepsSettled | app/page.tsx:100-138 | Every event keeps the listener, scroll-lock and timer invariant |
| ControllerProperties.RunKeepsSettled | app/page.tsx:100-138 | Any sequence of events keeps it |
| ControllerProperties.ScrollLockFollowsModal | app/page.tsx:122-138 | After any events from mount, overflow is hidden exactly when the modal is open, and at most one keydown listener exists, present exactly when open |
| ControllerProperties.JoinOpensModal | app/page.tsx:100-103 | Opening sets the modal open, clears `copied`, locks the scroll with one listener, keeps `showFullDetails`, and opening again changes nothing |
| ControllerProperties.GetProOpensModalWithoutCheckout | app/page.tsx:177-184 | With a checkout URL the click leaves the state alone; without one it opens the modal exactly as "Join" does |
| ControllerProperties.EscapeClosesModal | app/page.tsx:122-125 | Escape on an open modal closes it, clears `copied`, unlocks the scroll and removes the listener; any other key, or Escape on a closed modal, changes nothing |
| ControllerProperties.BackdropOnlyFromOutside | app/page.tsx:469-476 | A click reaches the backdrop's handler exactly when it lands on the backdrop |
| ControllerProperties.ModalClickOutcome | app/page.tsx:469-533 | A click in the open modal closes it exactly for the backdrop, "Close" and "Not now"; a copy button only starts its write; the panel and the e-mail link change nothing |
| ControllerProperties.ClosedModalIgnoresClicks | app/page.tsx:469 | With the modal closed there is nothing to click |
| ControllerProperties.CopyTextOfClick | app/page.tsx:497-516 | A click hands the clipboard the address or the template exactly when it lands on the matching copy button |
| ControllerProperties.WaitlistButtonsIgnoreCheckout | app/page.tsx:230-235 | A "Get Pro (Waitlist)" button opens the modal whether or not a checkout URL is configured, while the header link with one leaves the page state alone |
| ControllerProperties.ToggleTwiceRestores | app/page.tsx:262 | The toggle flips only `showFullDetails`, and two toggles restore the state and the visible events |
| ControllerProperties.CopySettles | app/page.tsx:110-119 | A successful write sets `copied` to its kind and arms one more revert at now + 1400; a failed one clears `copied` and arms nothing |
| ControllerProperties.RevertClearsAnyLabel | app/page.tsx:115 | A due revert clears `copied` whichever copy armed it and is used up; before the earliest deadline nothing fires |
| ControllerProperties.LabelHasRevertArmed | app/page.tsx:114-115 | A shown "Copied" label always has a revert armed, due within 1400 ms |
| ControllerProperties.StaleRevertClearsNewerLabel | app/page.tsx:115 | Copying the address and then the template 1000 ms later arms two reverts, and the first clears the template's label 400 ms after it appeared |
| ControllerProperties.LateCopyLabelsClosedModal | app/page.tsx:110-119 | A write that settles after the modal closed still sets `copied`, and reopening clears it |
| Page.Home.constructor | app/page.tsx:33-40 | Mounting resolves `hasGumroad` and `proHref` from the environment value and starts from the empty state |
| Page.Home.OpenWaitlist | app/page.tsx:100-103 | Sets `copied` to null and the modal open, nothing else |
| Page.Home.CloseWaitlist | app/page.tsx:105-108 | Sets `copied` to null and the modal closed, nothing else |
| Page.Home.CommitEffect | app/page.tsx:122-138 | Runs the last run's cleanup and the new run when `waitlistOpen` changed |
| Page.Home.ClickToggle | app/page.tsx:262 | Flips `showFullDetails` as the controller's step does, keeping the invariant |
| Page.Home.ClickJoin | app/page.tsx:149 | Opens the waitlist as the controller's step does, keeping the invariant |
| Page.Home.ClickGetPro | app/page.tsx:177-184 | Returns `proHref` to navigate to when `hasGumroad`, otherwise opens the waitlist; agrees with the controller's step |
| Page.Home.PressKey | app/page.tsx:123-125 | The registered listener closes the modal on Escape; agrees with the controller's step |
| Page.Home.RunHandler | app/page.tsx:469-533 | One element's `onClick`: the backdrop, "Close" and "Not now" close the modal, a copy button starts its write and hands back the address or the template, the panel and the e-mail link change nothing |
| Page.Home.Bubble | app/page.tsx:469-476 | Runs handlers from the target outwards until one stops propagation, and returns the text a copy button handed to the clipboard |
| Page.Home.ClickModal | app/page.tsx:469-533 | A click in the open modal agrees with the controller's step and returns the clipboard text of a copy button |
| Page.Home.SettleCopy | app/page.tsx:113-118 | Once `writeText` settles: on success `copied` becomes the kind and one revert is armed 1400 ms from now; on failure `copied` is cleared and nothing is armed |
| Page.Home.FireRevert | app/page.tsx:115 | A due revert clears `copied` and is used up; otherwise nothing changes |
| Page.Home.SettleClipboard | app/page.tsx:110-119 | A settled write updates `copied` and the armed reverts as the controller's step does |
| Page.Home.FireTimer | app/page.tsx:115 | The earliest due revert clears `copied`, as the controller's step does |
| Page.Home.AdvanceClock | app/page.tsx:115 | The clock moves forward only |

## Left out

- The parser behind `new URL` is a parameter. Only the `FailsWithoutScheme` fact about it is used, because the parser is browser code.
- `app/layout.tsx` is not part of this model: it holds metadata, font loading and the root wrapper, and no logic.
- Markup, class strings and `badgeClasses` (`app/page.tsx:83-98`) are not modelled, because they only affect presentation.
- `process.env.NEXT_PUBLIC_GUMROAD_URL` is an input of the constructor and of the routing functions, not a read.
- `navigator.clipboard.writeText` is an outcome supplied by a `ClipboardSettled` event, because it is asynchronous host I/O. The text it is given is returned by `Page.Home.ClickModal`.
- `window.setTimeout` and the wall clock are explicit deadlines and `ClockAdvanced` events. Reverts with the same 1400 ms delay fire in the order they were armed.
- React's scheduling is reduced to "run the handler's updates, then the effect if `waitlistOpen` changed". Unmounting the page is not modelled: the page lives for the whole session.
- The "Get Pro" click with a checkout URL leaves the page. The model stops at the returned URL.
- The footer year (`new Date().getFullYear()`) is not modelled, because it is only displayed.
- WaitlistContact.MailtoHrefDefined: it does not state the round trip for the page's own link as one equation. It states that the link is built, that the contact address holds no `?` or `#`, and that the subject and template are well formed; `Mailto.MailtoRoundTrip` applied to those facts gives the round trip for that link.
- The `window.setTimeout` revert (`app/page.tsx:115`) is never cleared, so an older revert can clear a newer label early (`ControllerProperties.StaleRevertClearsNewerLabel`).
- `copied` is `null | "email" | "template"` (`app/page.tsx:38`), and `proHref` is the only URL the page resolves.
- `openWaitlist` on an open modal still clears `copied` (`app/page.tsx:100-103`), and the model does that too.
- Only the header's "Get Pro" link (`app/page.tsx:177-184`) uses `proHref`. The two "Get Pro (Waitlist)" buttons (`app/page.tsx:230-235`, `app/page.tsx:430-435`) always call `openWaitlist`, even with a checkout URL configured, although the comments at `app/page.tsx:31` and `app/page.tsx:537-538` say every "Get Pro" call to action routes to it. The model follows the code (`ControllerProperties.WaitlistButtonsIgnoreCheckout`).
