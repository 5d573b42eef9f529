/**
 * The page's contact constants: the waitlist address, the request template
 * and the "Email Warren" link built from them.
 */
module WaitlistContact {
  import opened Wrappers
  import opened JsStrings
  import opened Mailto

  /** `contactEmail` */
  const ContactEmail: JsString := Js("contactwarrentrepp@gmail.com")

  const WaitlistSubject: JsString := Js("Nexus Nebula Pro Waitlist")

  const TemplateLines: seq<JsString> := [
    Js("Hey Warren,"),
    Js(""),
    Js("I'd like Nexus Nebula Pro access."),
    Js(""),
    Js("Name:"),
    Js("Use-case:"),
    Js("What I want Pro to solve:"),
    Js(""),
    Js("Thanks!")
  ]

  /** `waitlistTemplate`: the lines joined with line feeds. */
  const WaitlistTemplate: JsString := Join(TemplateLines, Js("\n"))

  /** `mailtoHref`; `None` would mean that building it throws. */
  const MailtoHref: Option<JsString> := BuildMailto(ContactEmail, WaitlistSubject, WaitlistTemplate)

  lemma TemplateHasNoSurrogates()
    ensures HasNoSurrogates(WaitlistTemplate)
  {
    forall k | 0 <= k < |TemplateLines| ensures HasNoSurrogates(TemplateLines[k]) {
      assert TemplateLines[k] in TemplateLines;
    }
    JoinHasNoSurrogates(TemplateLines, Js("\n"));
  }

  lemma ContactEmailIsPlain()
    ensures QUESTION !in ContactEmail && HASH !in ContactEmail
  {
  }

  lemma SubjectIsWellFormed()
    ensures IsWellFormed(WaitlistSubject)
  {
    BmpTextHasNoSurrogates("Nexus Nebula Pro Waitlist");
  }

  lemma TemplateIsWellFormed()
    ensures IsWellFormed(WaitlistTemplate)
  {
    TemplateHasNoSurrogates();
    NoSurrogatesIsWellFormed(WaitlistTemplate);
  }

  /**
   * Building the page's link never throws: both encoded parts are well
   * formed, so `MailtoRoundTrip` applies to them and a mail client gets
   * the address, the subject and the template back.
   */
  lemma MailtoHrefDefined()
    ensures MailtoHref.Some?
    ensures QUESTION !in ContactEmail && HASH !in ContactEmail
    ensures IsWellFormed(WaitlistSubject) && IsWellFormed(WaitlistTemplate)
  {
    ContactEmailIsPlain();
    SubjectIsWellFormed();
    TemplateIsWellFormed();
  }
}
