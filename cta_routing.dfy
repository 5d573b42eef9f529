/**
 * Where the "Get Pro" link leads: the checkout URL configured in the
 * environment when it is a usable http(s) URL, the in-page waitlist
 * otherwise, so that the link is never dead.
 */
module CtaRouting {
  import opened Wrappers
  import opened JsStrings

  /**
   * The `protocol` of `new URL(u)` (the basic URL parser of the WHATWG URL
   * Standard, with no base URL), or `None` when the constructor throws. The
   * parser itself is outside the model and is passed in.
   */
  type UrlParser = JsString -> Option<JsString>

  /** `isValidUrl(url)`: the URL parses and its protocol is exactly `http:` or `https:`. */
  predicate IsValidUrl(parse: UrlParser, url: JsString) {
    match parse(url)
    case None => false
    case Some(protocol) => protocol == Js("http:") || protocol == Js("https:")
  }

  predicate IsC0ControlOrSpace(c: CodeUnit) { c <= 0x20 }

  predicate IsAsciiAlpha(c: CodeUnit) { (0x41 <= c <= 0x5A) || (0x61 <= c <= 0x7A) }

  /**
   * The one fact about the WHATWG parser the model relies on: once leading
   * C0 controls and spaces are stripped, a scheme has to start with an ASCII
   * letter, and without a scheme or a base URL parsing fails. So the empty
   * string, and any string starting with another printable character (such
   * as `#`), fails to parse.
   */
  ghost predicate FailsWithoutScheme(parse: UrlParser) {
    forall u :: (u == [] || (!IsC0ControlOrSpace(u[0]) && !IsAsciiAlpha(u[0]))) ==> parse(u) == None
  }

  /**
   * A URL the parser accepts as http(s) starts with a letter or with
   * characters the parser strips. This only unpacks the assumed parser
   * fact `FailsWithoutScheme` (its contrapositive); it says nothing about
   * the page beyond that fact.
   */
  lemma ValidUrlStartsLikeScheme(parse: UrlParser, url: JsString)
    requires FailsWithoutScheme(parse)
    ensures IsValidUrl(parse, url) ==> url != [] && (IsC0ControlOrSpace(url[0]) || IsAsciiAlpha(url[0]))
  {
  }

  /** `(process.env.NEXT_PUBLIC_GUMROAD_URL || "").trim()`: unset and empty both read as "". */
  function EnvUrl(env: Option<JsString>): JsString {
    Trim(env.GetOr([]))
  }

  /** `hasGumroad` */
  predicate HasGumroad(parse: UrlParser, env: Option<JsString>) {
    IsValidUrl(parse, EnvUrl(env))
  }

  const WaitlistAnchor: JsString := Js("#waitlist")

  /** `proHref`: the trimmed checkout URL when it is valid, the waitlist anchor otherwise. */
  function ProHref(parse: UrlParser, env: Option<JsString>): JsString {
    if HasGumroad(parse, env) then EnvUrl(env) else WaitlistAnchor
  }

  /** What a click on "Get Pro" does. */
  datatype GetProAction =
    | Navigate(url: JsString)   // default link behaviour: follow `href`
    | ShowWaitlist              // `preventDefault()` and `openWaitlist()`

  /** The Get Pro click handler together with the link's default action. */
  function GetProClick(parse: UrlParser, env: Option<JsString>): GetProAction {
    if !HasGumroad(parse, env) then ShowWaitlist else Navigate(ProHref(parse, env))
  }

  /**
   * `proHref` is the waitlist anchor exactly when no usable checkout URL is
   * configured; otherwise it is the trimmed configured URL, which is valid.
   */
  lemma ProHrefResolution(parse: UrlParser, env: Option<JsString>)
    requires FailsWithoutScheme(parse)
    ensures ProHref(parse, env) == WaitlistAnchor <==> !HasGumroad(parse, env)
    ensures HasGumroad(parse, env) ==>
      ProHref(parse, env) == Trim(env.GetOr([])) && IsValidUrl(parse, ProHref(parse, env))
  {
    assert WaitlistAnchor != [] && WaitlistAnchor[0] == '#' as int;
    assert !IsValidUrl(parse, WaitlistAnchor);
  }

  /**
   * The Get Pro link is never dead: a click either navigates to a URL that is
   * valid, or stays on the page and opens the waitlist, the latter exactly
   * when no usable checkout URL is configured.
   */
  lemma GetProNeverDead(parse: UrlParser, env: Option<JsString>)
    ensures GetProClick(parse, env).Navigate? ==>
      IsValidUrl(parse, GetProClick(parse, env).url) && GetProClick(parse, env).url == ProHref(parse, env)
    ensures GetProClick(parse, env) == ShowWaitlist <==> !HasGumroad(parse, env)
  {
  }

  /** An unset, empty or blank variable yields the waitlist fallback. */
  lemma BlankEnvFallsBack(parse: UrlParser, env: Option<JsString>)
    requires FailsWithoutScheme(parse)
    requires env.Some? ==> forall i :: 0 <= i < |env.value| ==> IsTrimmable(env.value[i])
    ensures !HasGumroad(parse, env)
    ensures ProHref(parse, env) == WaitlistAnchor && GetProClick(parse, env) == ShowWaitlist
  {
    var raw := env.GetOr([]);
    assert LeadingTrimmable(raw) == |raw|;
    assert EnvUrl(env) == [];
  }

  /** A configured URL such as `https://pay.example/checkout` that parses as https is used as it is. */
  lemma CheckoutUrlIsUsed(parse: UrlParser)
    requires parse(Js("https://pay.example/checkout")) == Some(Js("https:"))
    ensures HasGumroad(parse, Some(Js("https://pay.example/checkout")))
    ensures GetProClick(parse, Some(Js("https://pay.example/checkout"))) == Navigate(Js("https://pay.example/checkout"))
  {
    var u := Js("https://pay.example/checkout");
    assert u[0] == 'h' as int && u[|u| - 1] == 't' as int;
    TrimKeepsUntrimmableEnds(u);
  }
}
