/**
 * `encodeURIComponent` and its inverse `decodeURIComponent` (ECMA-262,
 * section 19.2.6, URI Handling Functions): UTF-8 percent-encoding
 * (section 2.1 of RFC 3986) of every code point outside the unreserved set.
 * A `None` result stands for the URIError these functions throw.
 */
module UriComponent {
  import opened Wrappers
  import opened JsStrings

  type Byte = b: int | 0 <= b < 0x100

  const PERCENT: CodeUnit := 0x25

  /** uriAlpha, DecimalDigit and uriMark: `A-Z a-z 0-9 - _ . ! ~ * ' ( )`, left as they are. */
  predicate IsUnreserved(c: CodeUnit) {
    (0x41 <= c <= 0x5A) || (0x61 <= c <= 0x7A) || (0x30 <= c <= 0x39)
    || c == 0x2D || c == 0x5F || c == 0x2E || c == 0x21 || c == 0x7E
    || c == 0x2A || c == 0x27 || c == 0x28 || c == 0x29
  }

  predicate IsUpperHexDigit(c: CodeUnit) {
    (0x30 <= c <= 0x39) || (0x41 <= c <= 0x46)
  }

  /** The upper-case hexadecimal digit for a value below 16. */
  function HexDigit(v: int): (c: CodeUnit)
    requires 0 <= v < 16
    ensures IsUpperHexDigit(c)
  {
    if v < 10 then 0x30 + v else 0x41 + (v - 10)
  }

  /** The value of a hexadecimal digit of either case. */
  function HexValue(c: CodeUnit): (r: Option<int>)
    ensures r.Some? ==> 0 <= r.value < 16
  {
    if 0x30 <= c <= 0x39 then Some(c - 0x30)
    else if 0x41 <= c <= 0x46 then Some(c - 0x41 + 10)
    else if 0x61 <= c <= 0x66 then Some(c - 0x61 + 10)
    else None
  }

  /** ParseHexOctet: the octet two hexadecimal digits spell. */
  function HexOctet(hi: CodeUnit, lo: CodeUnit): Option<Byte> {
    match (HexValue(hi), HexValue(lo))
    case (Some(h), Some(l)) => Some(h * 16 + l)
    case _ => None
  }

  /** The escape `%HH` of one octet, with upper-case digits. */
  function Escape(b: Byte): JsString {
    [PERCENT, HexDigit(b / 16), HexDigit(b % 16)]
  }

  function PercentEncode(octets: seq<Byte>): (r: JsString)
    ensures |r| == 3 * |octets|
  {
    if octets == [] then [] else Escape(octets[0]) + PercentEncode(octets[1..])
  }

  predicate IsScalarValue(cp: int) {
    0 <= cp <= 0x10FFFF && !(0xD800 <= cp <= 0xDFFF)
  }

  /** The UTF-8 encoding (RFC 3629) of a code point. */
  function Utf8Encode(cp: int): (octets: seq<Byte>)
    requires IsScalarValue(cp)
    ensures 1 <= |octets| <= 4
  {
    if cp < 0x80 then [cp]
    else if cp < 0x800 then [0xC0 + cp / 64, 0x80 + cp % 64]
    else if cp < 0x1_0000 then [0xE0 + cp / 64 / 64, 0x80 + cp / 64 % 64, 0x80 + cp % 64]
    else [0xF0 + cp / 64 / 64 / 64, 0x80 + cp / 64 / 64 % 64, 0x80 + cp / 64 % 64, 0x80 + cp % 64]
  }

  /** The number of leading one bits of an octet. */
  function LeadingOnes(b: Byte): nat {
    if b < 0x80 then 0
    else if b < 0xC0 then 1
    else if b < 0xE0 then 2
    else if b < 0xF0 then 3
    else if b < 0xF8 then 4
    else if b < 0xFC then 5
    else if b < 0xFE then 6
    else if b < 0xFF then 7
    else 8
  }

  predicate IsContinuation(b: Byte) { 0x80 <= b < 0xC0 }

  /**
   * The code point that a UTF-8 sequence of two to four octets encodes, or
   * `None` when the octets are not the UTF-8 encoding of a code point (a bad
   * lead or continuation octet, an overlong form, a surrogate, or a value
   * beyond U+10FFFF).
   */
  function Utf8Decode(octets: seq<Byte>): (r: Option<int>)
    ensures r.Some? ==> IsScalarValue(r.value) && r.value >= 0x80
  {
    if |octets| == 2 && LeadingOnes(octets[0]) == 2 && IsContinuation(octets[1]) then
      var cp := (octets[0] as int - 0xC0) * 64 + (octets[1] as int - 0x80);
      if 0x80 <= cp then Some(cp) else None
    else if |octets| == 3 && LeadingOnes(octets[0]) == 3
      && IsContinuation(octets[1]) && IsContinuation(octets[2]) then
      var cp := ((octets[0] as int - 0xE0) * 64 + (octets[1] as int - 0x80)) * 64 + (octets[2] as int - 0x80);
      if 0x800 <= cp && !(0xD800 <= cp <= 0xDFFF) then Some(cp) else None
    else if |octets| == 4 && LeadingOnes(octets[0]) == 4
      && IsContinuation(octets[1]) && IsContinuation(octets[2]) && IsContinuation(octets[3]) then
      var cp := (((octets[0] as int - 0xF0) * 64 + (octets[1] as int - 0x80)) * 64 + (octets[2] as int - 0x80)) * 64 + (octets[3] as int - 0x80);
      if 0x1_0000 <= cp <= 0x10FFFF then Some(cp) else None
    else None
  }

  /** UTF16EncodeCodePoint: one code unit, or a surrogate pair above U+FFFF. */
  function Utf16Encode(cp: int): (r: JsString)
    requires IsScalarValue(cp)
    ensures |r| == if cp < 0x1_0000 then 1 else 2
  {
    if cp < 0x1_0000 then [cp]
    else [0xD800 + (cp - 0x1_0000) / 0x400, 0xDC00 + (cp - 0x1_0000) % 0x400]
  }

  /** UTF16SurrogatePairToCodePoint. */
  function PairCodePoint(hi: CodeUnit, lo: CodeUnit): (cp: int)
    requires IsHighSurrogate(hi) && IsLowSurrogate(lo)
    ensures IsScalarValue(cp) && cp >= 0x1_0000
  {
    0x1_0000 + (hi - 0xD800) * 0x400 + (lo - 0xDC00)
  }

  // ---------------------------------------------------------------------------
  // Encoding

  /**
   * `encodeURIComponent(s)`: unreserved code units are copied, every other
   * code point (a surrogate pair counting as one) becomes the `%HH` escapes
   * of its UTF-8 octets. A lone surrogate throws URIError (`None`).
   */
  function EncodeUriComponent(s: JsString): (r: Option<JsString>)
    decreases |s|
  {
    if s == [] then Some([])
    else if IsUnreserved(s[0]) then Prepend([s[0]], EncodeUriComponent(s[1..]))
    else if IsLowSurrogate(s[0]) then None
    else if IsHighSurrogate(s[0]) then
      if |s| >= 2 && IsLowSurrogate(s[1]) then
        Prepend(PercentEncode(Utf8Encode(PairCodePoint(s[0], s[1]))), EncodeUriComponent(s[2..]))
      else None
    else Prepend(PercentEncode(Utf8Encode(s[0])), EncodeUriComponent(s[1..]))
  }

  /** Only unreserved code units and `%HH` triplets with upper-case digits. */
  predicate IsEncodedForm(e: JsString)
    decreases |e|
  {
    e == []
    || (IsUnreserved(e[0]) && IsEncodedForm(e[1..]))
    || (|e| >= 3 && e[0] == PERCENT && IsUpperHexDigit(e[1]) && IsUpperHexDigit(e[2]) && IsEncodedForm(e[3..]))
  }

  // ---------------------------------------------------------------------------
  // Decoding

  /**
   * The octets of `count` further `%HH` escapes at the start of `s`, or
   * `None` when one is missing or malformed.
   */
  function ContinuationOctets(s: JsString, count: nat): (r: Option<seq<Byte>>)
    ensures r.Some? ==> |r.value| == count && 3 * count <= |s|
  {
    if count == 0 then Some([])
    else if |s| < 3 || s[0] != PERCENT then None
    else match HexOctet(s[1], s[2])
      case None => None
      case Some(b) =>
        match ContinuationOctets(s[3..], count - 1)
        case None => None
        case Some(rest) => Some([b] + rest)
  }

  /**
   * One escape sequence at the start of `s` (which begins with `%`): the code
   * units it decodes to and the number of code units it spans.
   */
  function DecodeEscape(s: JsString): (r: Option<(JsString, nat)>)
    requires s != [] && s[0] == PERCENT
    ensures r.Some? ==> 3 <= r.value.1 <= |s|
  {
    if |s| < 3 then None
    else match HexOctet(s[1], s[2])
      case None => None
      case Some(b) =>
        var n := LeadingOnes(b);
        if n == 0 then Some(([b], 3))
        else if n == 1 || n > 4 then None
        else match ContinuationOctets(s[3..], n - 1)
          case None => None
          case Some(tail) =>
            match Utf8Decode([b] + tail)
            case None => None
            case Some(cp) => Some((Utf16Encode(cp), 3 * n))
  }

  /** `decodeURIComponent(s)`, the Decode operation with an empty reserved set. */
  function DecodeUriComponent(s: JsString): (r: Option<JsString>)
    decreases |s|
  {
    if s == [] then Some([])
    else if s[0] != PERCENT then Prepend([s[0]], DecodeUriComponent(s[1..]))
    else match DecodeEscape(s)
      case None => None
      case Some(d) => Prepend(d.0, DecodeUriComponent(s[d.1..]))
  }

  // ---------------------------------------------------------------------------
  // Properties

  /** encodeURIComponent succeeds exactly on strings without a lone surrogate. */
  lemma {:induction false} EncodeDefinedIff(s: JsString)
    ensures EncodeUriComponent(s).Some? <==> IsWellFormed(s)
    decreases |s|
  {
    if s != [] {
      if IsHighSurrogate(s[0]) {
        WellFormedConsPair(s);
        if |s| >= 2 && IsLowSurrogate(s[1]) { EncodeDefinedIff(s[2..]); }
      } else if IsLowSurrogate(s[0]) {
        assert !IsWellFormed(s) by { assert !(0 < 0); }
      } else {
        WellFormedConsPlain(s);
        EncodeDefinedIff(s[1..]);
      }
    }
  }

  lemma EncodedFormConsUnreserved(c: CodeUnit, rest: JsString)
    requires IsUnreserved(c) && IsEncodedForm(rest)
    ensures IsEncodedForm([c] + rest)
  {
    assert ([c] + rest)[1..] == rest;
  }

  lemma EncodedFormConsTriplet(triplet: JsString, rest: JsString)
    requires |triplet| == 3 && triplet[0] == PERCENT && IsUpperHexDigit(triplet[1]) && IsUpperHexDigit(triplet[2])
    requires IsEncodedForm(rest)
    ensures IsEncodedForm(triplet + rest)
  {
    assert (triplet + rest)[3..] == rest;
  }

  /** Percent-encoded octets in front of encoded text keep it encoded. */
  lemma {:induction false} PercentEncodedPrefix(octets: seq<Byte>, rest: JsString)
    requires IsEncodedForm(rest)
    ensures IsEncodedForm(PercentEncode(octets) + rest)
    decreases |octets|
  {
    if octets == [] {
      assert PercentEncode(octets) + rest == rest;
    } else {
      var tail := PercentEncode(octets[1..]) + rest;
      PercentEncodedPrefix(octets[1..], rest);
      EncodedFormConsTriplet(Escape(octets[0]), tail);
      assert PercentEncode(octets) + rest == Escape(octets[0]) + tail;
    }
  }

  /** The output of encodeURIComponent holds only unreserved code units and `%HH` triplets. */
  lemma {:induction false} EncodeOutputForm(s: JsString)
    requires EncodeUriComponent(s).Some?
    ensures IsEncodedForm(EncodeUriComponent(s).value)
    decreases |s|
  {
    if s != [] {
      if IsUnreserved(s[0]) {
        EncodeOutputForm(s[1..]);
        EncodedFormConsUnreserved(s[0], EncodeUriComponent(s[1..]).value);
      } else if IsHighSurrogate(s[0]) {
        EncodeOutputForm(s[2..]);
        PercentEncodedPrefix(Utf8Encode(PairCodePoint(s[0], s[1])), EncodeUriComponent(s[2..]).value);
      } else {
        EncodeOutputForm(s[1..]);
        PercentEncodedPrefix(Utf8Encode(s[0]), EncodeUriComponent(s[1..]).value);
      }
    }
  }

  /** `& = ? #`, space, CR and LF: the code units that would split a query or end a URI early. */
  predicate IsQueryDelimiter(c: CodeUnit) {
    c == 0x26 || c == 0x3D || c == 0x3F || c == 0x23 || c == 0x20 || c == 0x0D || c == 0x0A
  }

  lemma {:induction false} EncodedFormHasNoDelimiter(e: JsString)
    requires IsEncodedForm(e)
    ensures forall i :: 0 <= i < |e| ==> !IsQueryDelimiter(e[i]) && (IsUnreserved(e[i]) || e[i] == PERCENT || IsUpperHexDigit(e[i]))
    decreases |e|
  {
    if e != [] {
      if IsUnreserved(e[0]) && IsEncodedForm(e[1..]) {
        EncodedFormHasNoDelimiter(e[1..]);
        forall i | 1 <= i < |e| ensures e[i] == e[1..][i - 1] { }
      } else {
        EncodedFormHasNoDelimiter(e[3..]);
        forall i | 3 <= i < |e| ensures e[i] == e[3..][i - 3] { }
      }
    }
  }

  /** An encoded component never contains a raw `&`, `=`, `?`, `#`, space or line break. */
  lemma EncodeHasNoDelimiter(s: JsString)
    requires EncodeUriComponent(s).Some?
    ensures forall i :: 0 <= i < |EncodeUriComponent(s).value| ==> !IsQueryDelimiter(EncodeUriComponent(s).value[i])
  {
    EncodeOutputForm(s);
    EncodedFormHasNoDelimiter(EncodeUriComponent(s).value);
  }

  // Round trip

  lemma HexOctetOfEscape(b: Byte)
    ensures HexOctet(HexDigit(b / 16), HexDigit(b % 16)) == Some(b)
  {
  }

  lemma {:induction false} ContinuationOfPercentEncoded(octets: seq<Byte>, rest: JsString)
    ensures ContinuationOctets(PercentEncode(octets) + rest, |octets|) == Some(octets)
    decreases |octets|
  {
    if octets != [] {
      var b := octets[0];
      var tail := PercentEncode(octets[1..]) + rest;
      var s := PercentEncode(octets) + rest;
      assert s == Escape(b) + tail;
      assert s[0] == PERCENT && s[1] == HexDigit(b / 16) && s[2] == HexDigit(b % 16) && s[3..] == tail;
      ContinuationOfPercentEncoded(octets[1..], rest);
      HexOctetOfEscape(b);
      assert [b] + octets[1..] == octets;
    }
  }

  /** Decoding the UTF-8 encoding of a code point above U+007F gives it back, and its lead octet announces its length. */
  lemma Utf8RoundTrip(cp: int)
    requires IsScalarValue(cp) && cp >= 0x80
    ensures LeadingOnes(Utf8Encode(cp)[0]) == |Utf8Encode(cp)|
    ensures Utf8Decode(Utf8Encode(cp)) == Some(cp)
  {
    var q1, r1 := cp / 64, cp % 64;
    assert cp == q1 * 64 + r1;
    var q2, r2 := q1 / 64, q1 % 64;
    assert q1 == q2 * 64 + r2;
    var q3, r3 := q2 / 64, q2 % 64;
    assert q2 == q3 * 64 + r3;
  }

  lemma Utf16PairRoundTrip(hi: CodeUnit, lo: CodeUnit)
    requires IsHighSurrogate(hi) && IsLowSurrogate(lo)
    ensures Utf16Encode(PairCodePoint(hi, lo)) == [hi, lo]
  {
    var v := PairCodePoint(hi, lo) - 0x1_0000;
    assert v == (hi - 0xD800) * 0x400 + (lo - 0xDC00);
    assert v / 0x400 == hi - 0xD800;
    assert v % 0x400 == lo - 0xDC00;
  }

  /** The escapes of one code point decode to its UTF-16 form, whatever follows them. */
  lemma DecodeEscapedCodePoint(cp: int, rest: JsString)
    requires IsScalarValue(cp)
    ensures DecodeUriComponent(PercentEncode(Utf8Encode(cp)) + rest)
         == Prepend(Utf16Encode(cp), DecodeUriComponent(rest))
  {
    var octets := Utf8Encode(cp);
    var e := PercentEncode(octets);
    var s := e + rest;
    HexOctetOfEscape(octets[0]);
    assert s[0] == PERCENT && s[1] == HexDigit(octets[0] / 16) && s[2] == HexDigit(octets[0] % 16);
    if cp < 0x80 {
      assert DecodeEscape(s) == Some(([cp], 3));
      assert s[3..] == rest;
    } else {
      Utf8RoundTrip(cp);
      assert e[3..] == PercentEncode(octets[1..]);
      assert s[3..] == PercentEncode(octets[1..]) + rest;
      ContinuationOfPercentEncoded(octets[1..], rest);
      assert [octets[0]] + octets[1..] == octets;
      assert DecodeEscape(s) == Some((Utf16Encode(cp), |e|));
      assert s[|e|..] == rest;
    }
  }

  /** decodeURIComponent undoes encodeURIComponent on every string it accepts. */
  lemma {:induction false} DecodeEncode(s: JsString)
    requires IsWellFormed(s)
    ensures EncodeUriComponent(s).Some?
    ensures DecodeUriComponent(EncodeUriComponent(s).value) == Some(s)
    decreases |s|
  {
    if s != [] {
      if IsUnreserved(s[0]) {
        WellFormedConsPlain(s);
        DecodeEncode(s[1..]);
        DecodeEncodeUnreserved(s);
      } else if IsHighSurrogate(s[0]) {
        WellFormedConsPair(s);
        DecodeEncode(s[2..]);
        DecodeEncodePair(s);
      } else {
        WellFormedConsPlain(s);
        DecodeEncode(s[1..]);
        DecodeEncodeEscaped(s);
      }
    }
  }

  /** One unreserved code unit in front of a string that already round-trips. */
  lemma DecodeEncodeUnreserved(s: JsString)
    requires s != [] && IsUnreserved(s[0])
    requires EncodeUriComponent(s[1..]).Some?
    requires DecodeUriComponent(EncodeUriComponent(s[1..]).value) == Some(s[1..])
    ensures EncodeUriComponent(s).Some?
    ensures DecodeUriComponent(EncodeUriComponent(s).value) == Some(s)
  {
    var e := EncodeUriComponent(s[1..]).value;
    assert ([s[0]] + e)[1..] == e;
    assert [s[0]] + s[1..] == s;
  }

  /** A surrogate pair in front of a string that already round-trips. */
  lemma DecodeEncodePair(s: JsString)
    requires |s| >= 2 && IsHighSurrogate(s[0]) && IsLowSurrogate(s[1])
    requires EncodeUriComponent(s[2..]).Some?
    requires DecodeUriComponent(EncodeUriComponent(s[2..]).value) == Some(s[2..])
    ensures EncodeUriComponent(s).Some?
    ensures DecodeUriComponent(EncodeUriComponent(s).value) == Some(s)
  {
    var cp := PairCodePoint(s[0], s[1]);
    var head := PercentEncode(Utf8Encode(cp));
    var tail := EncodeUriComponent(s[2..]).value;
    assert EncodeUriComponent(s) == Some(head + tail);
    DecodeEscapedCodePoint(cp, tail);
    Utf16PairRoundTrip(s[0], s[1]);
    assert DecodeUriComponent(head + tail) == Some([s[0], s[1]] + s[2..]);
    assert [s[0], s[1]] + s[2..] == s;
  }

  /** Any other non-surrogate code unit in front of a string that already round-trips. */
  lemma DecodeEncodeEscaped(s: JsString)
    requires s != [] && !IsUnreserved(s[0]) && !IsSurrogate(s[0])
    requires EncodeUriComponent(s[1..]).Some?
    requires DecodeUriComponent(EncodeUriComponent(s[1..]).value) == Some(s[1..])
    ensures EncodeUriComponent(s).Some?
    ensures DecodeUriComponent(EncodeUriComponent(s).value) == Some(s)
  {
    DecodeEscapedCodePoint(s[0], EncodeUriComponent(s[1..]).value);
    assert [s[0]] + s[1..] == s;
  }
}
