/**
 * The waitlist contact link: a `mailto:` URI (RFC 6068) whose `subject`
 * and `body` header fields are encoded with encodeURIComponent, and a
 * reader of such URIs that serves as its inverse.
 */
module Mailto {
  import opened Wrappers
  import opened JsStrings
  import opened UriComponent

  const QUESTION: CodeUnit := 0x3F
  const AMPERSAND: CodeUnit := 0x26
  const EQUALS: CodeUnit := 0x3D
  const HASH: CodeUnit := 0x23

  /**
   * `buildMailto(email, subject, body)`: the address is inserted as it is,
   * subject and body are encoded. `None` stands for the URIError that
   * encodeURIComponent throws on a lone surrogate.
   */
  function BuildMailto(email: JsString, subject: JsString, body: JsString): (r: Option<JsString>)
    ensures r.Some? <==> IsWellFormed(subject) && IsWellFormed(body)
  {
    EncodeDefinedIff(subject);
    EncodeDefinedIff(body);
    match (EncodeUriComponent(subject), EncodeUriComponent(body))
    case (Some(s), Some(b)) => Some(Js("mailto:") + email + Js("?subject=") + s + Js("&body=") + b)
    case _ => None
  }

  // ---------------------------------------------------------------------------
  // Reading a mailto URI back

  /** The parts of a mailto URI: the raw address and the decoded header fields in order. */
  datatype MailtoLink = MailtoLink(to: JsString, fields: seq<(JsString, JsString)>)

  /** The code units before the first `c`; all of `s` when it holds none. */
  function TakeUntil(s: JsString, c: CodeUnit): (r: JsString)
    ensures |r| <= |s| && r == s[..|r|]
    ensures c !in r
    ensures |r| < |s| ==> s[|r|] == c
  {
    if s == [] || s[0] == c then [] else [s[0]] + TakeUntil(s[1..], c)
  }

  /** `s.split(c)`: the pieces between occurrences of `c`, in order. */
  function SplitOn(s: JsString, c: CodeUnit): (r: seq<JsString>)
    ensures |r| >= 1
    decreases |s|
  {
    var head := TakeUntil(s, c);
    if |head| == |s| then [s] else [head] + SplitOn(s[|head| + 1..], c)
  }

  /** One `name=value` header field, its value percent-decoded. */
  function ParseField(f: JsString): Option<(JsString, JsString)> {
    var name := TakeUntil(f, EQUALS);
    if |name| == |f| then None
    else match DecodeUriComponent(f[|name| + 1..])
      case None => None
      case Some(v) => Some((name, v))
  }

  function ParseFields(fs: seq<JsString>): Option<seq<(JsString, JsString)>> {
    if fs == [] then Some([])
    else match ParseField(fs[0])
      case None => None
      case Some(f) =>
        match ParseFields(fs[1..])
        case None => None
        case Some(rest) => Some([f] + rest)
  }

  /**
   * How a mail client reads a mailto URI: any fragment is dropped, the
   * address runs up to the first `?`, and the rest is a list of
   * `&`-separated `name=value` fields.
   */
  function ParseMailto(uri: JsString): Option<MailtoLink> {
    var u := TakeUntil(uri, HASH);
    var scheme := Js("mailto:");
    if !(|scheme| <= |u| && u[..|scheme|] == scheme) then None
    else
      var rest := u[|scheme|..];
      var to := TakeUntil(rest, QUESTION);
      if |to| == |rest| then Some(MailtoLink(to, []))
      else match ParseFields(SplitOn(rest[|to| + 1..], AMPERSAND))
        case None => None
        case Some(fields) => Some(MailtoLink(to, fields))
  }

  // ---------------------------------------------------------------------------
  // Properties

  lemma {:induction false} TakeUntilAbsent(s: JsString, c: CodeUnit)
    requires c !in s
    ensures TakeUntil(s, c) == s
    decreases |s|
  {
    if s != [] {
      TakeUntilAbsent(s[1..], c);
      assert [s[0]] + s[1..] == s;
    }
  }

  lemma {:induction false} TakeUntilFirst(a: JsString, c: CodeUnit, b: JsString)
    requires c !in a
    ensures TakeUntil(a + [c] + b, c) == a
    decreases |a|
  {
    if a != [] {
      TakeUntilFirst(a[1..], c, b);
      assert (a + [c] + b)[1..] == a[1..] + [c] + b;
      assert [a[0]] + a[1..] == a;
    }
  }

  lemma SplitOnAbsent(s: JsString, c: CodeUnit)
    requires c !in s
    ensures SplitOn(s, c) == [s]
  {
    TakeUntilAbsent(s, c);
  }

  lemma SplitOnFirst(a: JsString, c: CodeUnit, b: JsString)
    requires c !in a
    ensures SplitOn(a + [c] + b, c) == [a] + SplitOn(b, c)
  {
    TakeUntilFirst(a, c, b);
    assert (a + [c] + b)[|a| + 1..] == b;
  }

  /** A field whose name holds no `=` and whose value is an encoded component reads back as the decoded value. */
  lemma ParseEncodedField(name: JsString, value: JsString)
    requires EQUALS !in name && IsWellFormed(value)
    ensures EncodeUriComponent(value).Some?
    ensures ParseField(name + [EQUALS] + EncodeUriComponent(value).value) == Some((name, value))
  {
    DecodeEncode(value);
    var e := EncodeUriComponent(value).value;
    TakeUntilFirst(name, EQUALS, e);
    assert (name + [EQUALS] + e)[|name| + 1..] == e;
  }

  lemma LiteralPieces()
    ensures Js("?subject=") == [QUESTION] + Js("subject") + [EQUALS]
    ensures Js("&body=") == [AMPERSAND] + Js("body") + [EQUALS]
    ensures HASH !in Js("mailto:") && HASH !in Js("subject") && HASH !in Js("body")
    ensures AMPERSAND !in Js("subject") && AMPERSAND !in Js("body")
    ensures EQUALS !in Js("subject") && EQUALS !in Js("body")
  {
  }

  /** The address of a link without a fragment is read up to the first `?`, the rest split at `&`. */
  lemma ParseMailtoOf(email: JsString, query: JsString)
    requires QUESTION !in email && HASH !in email && HASH !in query
    ensures ParseMailto(Js("mailto:") + (email + [QUESTION] + query))
         == match ParseFields(SplitOn(query, AMPERSAND))
            case None => None
            case Some(fields) => Some(MailtoLink(email, fields))
  {
    var scheme := Js("mailto:");
    var rest := email + [QUESTION] + query;
    var uri := scheme + rest;
    LiteralPieces();
    assert HASH !in rest;
    assert HASH !in uri;
    TakeUntilAbsent(uri, HASH);
    assert uri[..|scheme|] == scheme;
    assert uri[|scheme|..] == rest;
    TakeUntilFirst(email, QUESTION, query);
    assert rest[|email| + 1..] == query;
  }

  lemma ParseFieldOf(name: JsString, e: JsString, v: JsString)
    requires EQUALS !in name && DecodeUriComponent(e) == Some(v)
    ensures ParseField(name + [EQUALS] + e) == Some((name, v))
  {
    TakeUntilFirst(name, EQUALS, e);
    assert (name + [EQUALS] + e)[|name| + 1..] == e;
  }

  lemma ParseFieldsPair(f1: JsString, p1: (JsString, JsString), f2: JsString, p2: (JsString, JsString))
    requires ParseField(f1) == Some(p1) && ParseField(f2) == Some(p2)
    ensures ParseFields([f1, f2]) == Some([p1, p2])
  {
    var fs: seq<JsString> := [f1, f2];
    var last: seq<JsString> := [f2];
    assert fs[1..] == last;
    var none: seq<JsString> := [];
    var noFields: seq<(JsString, JsString)> := [];
    assert ParseFields(none) == Some(noFields);
    assert last[0] == f2 && last[1..] == none;
    assert [p2] + noFields == [p2];
    assert ParseFields(last) == Some([p2]);
    assert fs[0] == f1;
    assert ParseFields(fs) == Some([p1] + [p2]);
    assert [p1] + [p2] == [p1, p2];
  }

  /** Two `&`-free `name=value` fields joined by `&` read back as their decoded values. */
  lemma ParseTwoFields(n1: JsString, e1: JsString, v1: JsString, n2: JsString, e2: JsString, v2: JsString)
    requires AMPERSAND !in n1 && AMPERSAND !in e1 && AMPERSAND !in n2 && AMPERSAND !in e2
    requires EQUALS !in n1 && EQUALS !in n2
    requires DecodeUriComponent(e1) == Some(v1) && DecodeUriComponent(e2) == Some(v2)
    ensures ParseFields(SplitOn(n1 + [EQUALS] + e1 + [AMPERSAND] + (n2 + [EQUALS] + e2), AMPERSAND))
         == Some([(n1, v1), (n2, v2)])
  {
    var f1 := n1 + [EQUALS] + e1;
    var f2 := n2 + [EQUALS] + e2;
    ParseFieldOf(n1, e1, v1);
    ParseFieldOf(n2, e2, v2);
    assert AMPERSAND !in f1 && AMPERSAND !in f2;
    SplitOnFirst(f1, AMPERSAND, f2);
    SplitOnAbsent(f2, AMPERSAND);
    assert SplitOn(f1 + [AMPERSAND] + f2, AMPERSAND) == [f1, f2];
    ParseFieldsPair(f1, (n1, v1), f2, (n2, v2));
  }

  lemma Regroup(scheme: JsString, email: JsString, q: CodeUnit, sname: JsString, eq: CodeUnit,
                es: JsString, amp: CodeUnit, bname: JsString, eb: JsString)
    ensures scheme + email + ([q] + sname + [eq]) + es + ([amp] + bname + [eq]) + eb
         == scheme + (email + [q] + (sname + [eq] + es + [amp] + (bname + [eq] + eb)))
  {
  }

  /**
   * Reading the link back yields the raw address and exactly two fields,
   * `subject` and `body`, holding the original texts, as long as the address
   * holds no `?` or `#` (the encoded parts never do).
   */
  lemma MailtoRoundTrip(email: JsString, subject: JsString, body: JsString)
    requires IsWellFormed(subject) && IsWellFormed(body)
    requires QUESTION !in email && HASH !in email
    ensures BuildMailto(email, subject, body).Some?
    ensures ParseMailto(BuildMailto(email, subject, body).value)
         == Some(MailtoLink(email, [(Js("subject"), subject), (Js("body"), body)]))
  {
    EncodeDefinedIff(subject);
    EncodeDefinedIff(body);
    var es := EncodeUriComponent(subject).value;
    var eb := EncodeUriComponent(body).value;
    EncodeHasNoDelimiter(subject);
    EncodeHasNoDelimiter(body);
    LiteralPieces();
    var query := Js("subject") + [EQUALS] + es + [AMPERSAND] + (Js("body") + [EQUALS] + eb);
    assert HASH !in es && HASH !in eb;
    assert HASH !in query;
    var uri := BuildMailto(email, subject, body).value;
    assert uri == Js("mailto:") + email + Js("?subject=") + es + Js("&body=") + eb;
    Regroup(Js("mailto:"), email, QUESTION, Js("subject"), EQUALS, es, AMPERSAND, Js("body"), eb);
    assert uri == Js("mailto:") + (email + [QUESTION] + query);
    ParseMailtoOf(email, query);
    DecodeEncode(subject);
    DecodeEncode(body);
    assert AMPERSAND !in es && AMPERSAND !in eb;
    ParseTwoFields(Js("subject"), es, subject, Js("body"), eb, body);
  }

  /**
   * The address is not encoded: it follows the scheme verbatim and is
   * ended by the `?` that opens the header fields, which are made of
   * unreserved characters and escapes only.
   */
  lemma EmailInsertedRaw(email: JsString, subject: JsString, body: JsString)
    requires BuildMailto(email, subject, body).Some?
    ensures var u := BuildMailto(email, subject, body).value;
      && |u| > 7 + |email|
      && u[..7] == Js("mailto:")
      && u[7..7 + |email|] == email
      && u[7 + |email|] == QUESTION
  {
    var u := BuildMailto(email, subject, body).value;
    var s := EncodeUriComponent(subject).value;
    var b := EncodeUriComponent(body).value;
    var rest := Js("?subject=") + s + Js("&body=") + b;
    assert u == Js("mailto:") + email + rest;
    assert (Js("mailto:") + email + rest)[7 + |email|] == rest[0];
  }
}
