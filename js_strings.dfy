/**
 * ECMAScript strings as sequences of UTF-16 code units, with the few
 * built-in string operations the page uses: `String.prototype.trim` and
 * `Array.prototype.join`.
 */
module JsStrings {
  import opened Wrappers

  /** One UTF-16 code unit. */
  type CodeUnit = c: int | 0 <= c < 0x1_0000

  /** An ECMAScript string value. */
  type JsString = seq<CodeUnit>

  /** True when every character of a Dafny text lies in the Basic Multilingual Plane. */
  predicate IsBmpText(s: string) {
    forall i :: 0 <= i < |s| ==> s[i] as int < 0x1_0000
  }

  /** The ECMAScript string with the same text as a BMP-only Dafny literal. */
  function Js(s: string): (r: JsString)
    requires IsBmpText(s)
    ensures |r| == |s|
    ensures forall i :: 0 <= i < |s| ==> r[i] == s[i] as int
  {
    seq(|s|, i requires 0 <= i < |s| => s[i] as int)
  }

  predicate IsHighSurrogate(c: CodeUnit) { 0xD800 <= c <= 0xDBFF }

  predicate IsLowSurrogate(c: CodeUnit) { 0xDC00 <= c <= 0xDFFF }

  predicate IsSurrogate(c: CodeUnit) { IsHighSurrogate(c) || IsLowSurrogate(c) }

  /** No lone surrogate: each high surrogate is followed by a low one and each low surrogate follows a high one. */
  predicate IsWellFormed(s: JsString) {
    forall i {:trigger s[i]} :: 0 <= i < |s| ==>
      (IsHighSurrogate(s[i]) ==> i + 1 < |s| && IsLowSurrogate(s[i + 1])) &&
      (IsLowSurrogate(s[i]) ==> 0 < i && IsHighSurrogate(s[i - 1]))
  }

  predicate HasNoSurrogates(s: JsString) {
    forall i :: 0 <= i < |s| ==> !IsSurrogate(s[i])
  }

  /** A Dafny character is a Unicode scalar value, so a BMP literal holds no surrogate. */
  lemma BmpTextHasNoSurrogates(s: string)
    requires IsBmpText(s)
    ensures HasNoSurrogates(Js(s)) && IsWellFormed(Js(s))
  {
  }

  /** Dropping a leading code unit that is no surrogate keeps well-formedness, both ways. */
  lemma WellFormedConsPlain(s: JsString)
    requires s != [] && !IsSurrogate(s[0])
    ensures IsWellFormed(s) <==> IsWellFormed(s[1..])
  {
    var t := s[1..];
    if IsWellFormed(t) {
      forall i | 0 <= i < |s|
        ensures IsHighSurrogate(s[i]) ==> i + 1 < |s| && IsLowSurrogate(s[i + 1])
        ensures IsLowSurrogate(s[i]) ==> 0 < i && IsHighSurrogate(s[i - 1])
      {
        if i > 0 {
          assert s[i] == t[i - 1];
          if i + 1 < |s| { assert s[i + 1] == t[i]; }
          if i > 1 { assert s[i - 1] == t[i - 2]; }
        }
      }
    }
    if IsWellFormed(s) {
      forall j | 0 <= j < |t|
        ensures IsHighSurrogate(t[j]) ==> j + 1 < |t| && IsLowSurrogate(t[j + 1])
        ensures IsLowSurrogate(t[j]) ==> 0 < j && IsHighSurrogate(t[j - 1])
      {
        assert t[j] == s[j + 1];
        if j + 1 < |t| { assert t[j + 1] == s[j + 2]; }
        if j > 0 { assert t[j - 1] == s[j]; }
      }
    }
  }

  /** A high surrogate at the front must be followed by a low one, and the rest stays well-formed. */
  lemma WellFormedConsPair(s: JsString)
    requires s != [] && IsHighSurrogate(s[0])
    ensures IsWellFormed(s) <==> |s| >= 2 && IsLowSurrogate(s[1]) && IsWellFormed(s[2..])
  {
    if |s| >= 2 && IsLowSurrogate(s[1]) && IsWellFormed(s[2..]) {
      var t := s[2..];
      forall i | 0 <= i < |s|
        ensures IsHighSurrogate(s[i]) ==> i + 1 < |s| && IsLowSurrogate(s[i + 1])
        ensures IsLowSurrogate(s[i]) ==> 0 < i && IsHighSurrogate(s[i - 1])
      {
        if i > 1 {
          assert s[i] == t[i - 2];
          if i + 1 < |s| { assert s[i + 1] == t[i - 1]; }
          if i > 2 { assert s[i - 1] == t[i - 3]; }
        }
      }
    }
    if IsWellFormed(s) {
      assert |s| >= 2 && IsLowSurrogate(s[1]);
      var t := s[2..];
      forall j | 0 <= j < |t|
        ensures IsHighSurrogate(t[j]) ==> j + 1 < |t| && IsLowSurrogate(t[j + 1])
        ensures IsLowSurrogate(t[j]) ==> 0 < j && IsHighSurrogate(t[j - 1])
      {
        assert t[j] == s[j + 2];
        if j + 1 < |t| { assert t[j + 1] == s[j + 3]; }
        if j > 0 { assert t[j - 1] == s[j + 1]; }
      }
    }
  }

  /** Prefix a string to a possibly-failed result; a failure stays a failure. */
  function Prepend(p: JsString, r: Option<JsString>): Option<JsString> {
    match r
    case None => None
    case Some(v) => Some(p + v)
  }

  // ---------------------------------------------------------------------------
  // String.prototype.trim

  /**
   * The WhiteSpace and LineTerminator code points of ECMA-262 (sections 12.2
   * and 12.3), which `String.prototype.trim` removes from both ends: TAB, VT,
   * FF, SPACE, NBSP, ZWNBSP, the other space separators of category Zs, and
   * LF, CR, LS, PS.
   */
  predicate IsTrimmable(c: CodeUnit) {
    c == 0x09 || c == 0x0B || c == 0x0C || c == 0x20 || c == 0xA0 || c == 0xFEFF
    || c == 0x1680 || (0x2000 <= c <= 0x200A) || c == 0x202F || c == 0x205F || c == 0x3000
    || c == 0x0A || c == 0x0D || c == 0x2028 || c == 0x2029
  }

  /** Length of the longest prefix made of trimmable code units. */
  function LeadingTrimmable(s: JsString): (n: nat)
    ensures n <= |s|
    ensures forall i :: 0 <= i < n ==> IsTrimmable(s[i])
    ensures n < |s| ==> !IsTrimmable(s[n])
  {
    if s == [] || !IsTrimmable(s[0]) then 0 else 1 + LeadingTrimmable(s[1..])
  }

  /** Length of the longest suffix made of trimmable code units. */
  function TrailingTrimmable(s: JsString): (n: nat)
    ensures n <= |s|
    ensures forall i :: |s| - n <= i < |s| ==> IsTrimmable(s[i])
    ensures n < |s| ==> !IsTrimmable(s[|s| - 1 - n])
  {
    if s == [] || !IsTrimmable(s[|s| - 1]) then 0 else 1 + TrailingTrimmable(s[..|s| - 1])
  }

  /**
   * `String.prototype.trim`: the slice of `s` left after removing every
   * trimmable code unit from its start and from its end.
   */
  function Trim(s: JsString): (r: JsString)
    ensures LeadingTrimmable(s) + |r| <= |s|
    ensures r == s[LeadingTrimmable(s) .. LeadingTrimmable(s) + |r|]
    ensures forall i :: 0 <= i < LeadingTrimmable(s) ==> IsTrimmable(s[i])
    ensures forall i :: LeadingTrimmable(s) + |r| <= i < |s| ==> IsTrimmable(s[i])
    ensures r != [] ==> !IsTrimmable(r[0]) && !IsTrimmable(r[|r| - 1])
  {
    var rest := s[LeadingTrimmable(s)..];
    rest[..|rest| - TrailingTrimmable(rest)]
  }

  /** A string that neither starts nor ends with a trimmable code unit is its own trim. */
  lemma TrimKeepsUntrimmableEnds(s: JsString)
    requires s != [] ==> !IsTrimmable(s[0]) && !IsTrimmable(s[|s| - 1])
    ensures Trim(s) == s
  {
  }

  /** Trimming twice is trimming once. */
  lemma TrimIdempotent(s: JsString)
    ensures Trim(Trim(s)) == Trim(s)
  {
    TrimKeepsUntrimmableEnds(Trim(s));
  }

  // ---------------------------------------------------------------------------
  // Array.prototype.join

  /** `lines.join(sep)`: the elements in order with `sep` between neighbours. */
  function Join(lines: seq<JsString>, sep: JsString): JsString {
    if lines == [] then []
    else if |lines| == 1 then lines[0]
    else lines[0] + sep + Join(lines[1..], sep)
  }

  lemma {:induction false} JoinHasNoSurrogates(lines: seq<JsString>, sep: JsString)
    requires HasNoSurrogates(sep)
    requires forall k :: 0 <= k < |lines| ==> HasNoSurrogates(lines[k])
    ensures HasNoSurrogates(Join(lines, sep))
  {
    if |lines| > 1 {
      JoinHasNoSurrogates(lines[1..], sep);
      var j := lines[0] + sep + Join(lines[1..], sep);
      forall i | 0 <= i < |j| ensures !IsSurrogate(j[i]) {
        if i < |lines[0]| {
          assert j[i] == lines[0][i];
        } else if i < |lines[0]| + |sep| {
          assert j[i] == sep[i - |lines[0]|];
        } else {
          assert j[i] == Join(lines[1..], sep)[i - |lines[0]| - |sep|];
        }
      }
    }
  }

  lemma NoSurrogatesIsWellFormed(s: JsString)
    requires HasNoSurrogates(s)
    ensures IsWellFormed(s)
  {
  }
}
