/**
 * ECMAScript strings as the server sees them: sequences of UTF-16 code units.
 * `.length`, `String.prototype.trim` and `startsWith` all work on code units,
 * so this is the representation that makes the length checks of server.js exact.
 */
module JsText {
  import opened Wrappers

  /** One UTF-16 code unit, the element of an ECMAScript string. */
  type CodeUnit = c: int | 0 <= c < 0x1_0000

  type JsString = seq<CodeUnit>

  /** A Unicode scalar value: a code point that is not a surrogate. */
  type CodePoint = c: int | 0 <= c <= 0x10_FFFF && !(0xD800 <= c <= 0xDFFF)

  /** An ECMAScript error object, reduced to its `name` and `message`. */
  datatype JsError = JsError(name: JsString, message: JsString)

  /**
   * The JavaScript string a Dafny literal of Basic Multilingual Plane
   * characters denotes: one code unit per character. Every literal of
   * server.js is of that kind; a character beyond the plane would need a
   * surrogate pair and is read as U+FFFD here.
   */
  function Units(s: string): (r: JsString)
    ensures |r| == |s|
    ensures forall i :: 0 <= i < |s| && s[i] as int < 0x1_0000 ==> r[i] == s[i] as int
  {
    seq(|s|, i requires 0 <= i < |s| => if s[i] as int < 0x1_0000 then s[i] as int else 0xFFFD)
  }

  predicate IsHighSurrogate(c: int) { 0xD800 <= c <= 0xDBFF }

  predicate IsLowSurrogate(c: int) { 0xDC00 <= c <= 0xDFFF }

  predicate IsSurrogate(c: int) { 0xD800 <= c <= 0xDFFF }

  /** The code point a surrogate pair stands for. */
  function PairValue(hi: CodeUnit, lo: CodeUnit): (cp: CodePoint)
    requires IsHighSurrogate(hi) && IsLowSurrogate(lo)
    ensures 0x1_0000 <= cp
  {
    0x1_0000 + (hi - 0xD800) * 0x400 + (lo - 0xDC00)
  }

  /** UTF-16 encoding of one code point (one unit, or a surrogate pair). */
  function CodeUnitsOf(cp: CodePoint): (r: JsString)
    ensures cp < 0x1_0000 ==> r == [cp]
    ensures 0x1_0000 <= cp ==>
              |r| == 2 && IsHighSurrogate(r[0]) && IsLowSurrogate(r[1]) && PairValue(r[0], r[1]) == cp
  {
    if cp < 0x1_0000 then [cp]
    else [0xD800 + (cp - 0x1_0000) / 0x400, 0xDC00 + (cp - 0x1_0000) % 0x400]
  }

  /** Decoding a surrogate pair and encoding the code point again gives the pair back. */
  lemma PairRoundTrip(hi: CodeUnit, lo: CodeUnit)
    requires IsHighSurrogate(hi) && IsLowSurrogate(lo)
    ensures CodeUnitsOf(PairValue(hi, lo)) == [hi, lo]
  {
    var x := PairValue(hi, lo) - 0x1_0000;
    assert x == (hi - 0xD800) * 0x400 + (lo - 0xDC00);
    assert x / 0x400 == hi - 0xD800;
    assert x % 0x400 == lo - 0xDC00;
  }

  /**
   * The unit at `i` is not half of a broken pair: a high surrogate is followed
   * by a low one and a low surrogate is preceded by a high one.
   */
  predicate WellPlaced(s: JsString, i: int)
    requires 0 <= i < |s|
  {
    && (IsHighSurrogate(s[i]) ==> i + 1 < |s| && IsLowSurrogate(s[i + 1]))
    && (IsLowSurrogate(s[i]) ==> 0 < i && IsHighSurrogate(s[i - 1]))
  }

  /**
   * A string with no unpaired surrogate. These are the strings
   * `encodeURIComponent` accepts.
   */
  predicate WellFormedUtf16(s: JsString)
  {
    forall i :: 0 <= i < |s| ==> WellPlaced(s, i)
  }

  /** `s.startsWith(prefix)`: case-sensitive, unit by unit. */
  predicate StartsWith(s: JsString, prefix: JsString)
  {
    |prefix| <= |s| && s[..|prefix|] == prefix
  }

  /**
   * ECMAScript's WhiteSpace and LineTerminator code points, the set that
   * `String.prototype.trim` removes. All of them lie in the Basic Multilingual
   * Plane and none is a surrogate, so testing code units is exact.
   */
  const JS_WHITESPACE: set<int> := {0x09, 0x0A, 0x0B, 0x0C, 0x0D, 0x20, 0xA0, 0x1680,
    0x2000, 0x2001, 0x2002, 0x2003, 0x2004, 0x2005, 0x2006, 0x2007, 0x2008, 0x2009, 0x200A,
    0x2028, 0x2029, 0x202F, 0x205F, 0x3000, 0xFEFF}

  /** Whether `trim` removes the code unit `c`. */
  predicate IsJsWhitespace(c: CodeUnit)
  {
    c in JS_WHITESPACE
  }

  /** Removes leading whitespace: the result is a suffix of `s`. */
  function TrimStart(s: JsString): (r: JsString)
    ensures |r| <= |s| && r == s[|s| - |r|..]
    ensures forall k :: 0 <= k < |s| - |r| ==> IsJsWhitespace(s[k])
    ensures r != [] ==> !IsJsWhitespace(r[0])
  {
    if s != [] && IsJsWhitespace(s[0]) then TrimStart(s[1..]) else s
  }

  /** Removes trailing whitespace: the result is a prefix of `s`. */
  function TrimEnd(s: JsString): (r: JsString)
    ensures |r| <= |s| && r == s[..|r|]
    ensures forall k :: |r| <= k < |s| ==> IsJsWhitespace(s[k])
    ensures r != [] ==> !IsJsWhitespace(r[|r| - 1])
  {
    if s != [] && IsJsWhitespace(s[|s| - 1]) then TrimEnd(s[..|s| - 1]) else s
  }

  /** `String.prototype.trim`: what is left neither starts nor ends with whitespace. */
  function Trim(s: JsString): (r: JsString)
    ensures r != [] ==> !IsJsWhitespace(r[0]) && !IsJsWhitespace(r[|r| - 1])
  {
    var u := TrimStart(s);
    assert TrimEnd(u) != [] ==> TrimEnd(u)[0] == u[0];
    TrimEnd(u)
  }

  /**
   * `Trim(s)` is the slice `s[i..i + |t|]`, where `i` is the number of
   * leading whitespace units.
   */
  lemma TrimIsInnerSlice(s: JsString)
    ensures var t, i := Trim(s), |s| - |TrimStart(s)|;
      i + |t| <= |s| && t == s[i..i + |t|]
  {
    var u := TrimStart(s);
    var t := TrimEnd(u);
    var i := |s| - |u|;
    assert u == s[i..] && t == u[..|t|];
  }

  /** Everything `Trim(s)` removes, in front of the slice and after it, is whitespace. */
  lemma TrimDropsOnlyWhitespace(s: JsString)
    ensures var t, i := Trim(s), |s| - |TrimStart(s)|;
      && (forall k :: 0 <= k < i ==> IsJsWhitespace(s[k]))
      && (forall k :: i + |t| <= k < |s| ==> IsJsWhitespace(s[k]))
  {
    var u := TrimStart(s);
    var t := TrimEnd(u);
    var i := |s| - |u|;
    forall k | i + |t| <= k < |s|
      ensures IsJsWhitespace(s[k])
    {
      assert s[k] == u[k - i];
    }
  }

  /** Trimming twice is trimming once. */
  lemma TrimIdempotent(s: JsString)
    ensures Trim(Trim(s)) == Trim(s)
  {
    var t := Trim(s);
    if t != [] {
      assert TrimStart(t) == t;
      assert TrimEnd(t) == t;
    }
  }

  /** A string that starts and ends with non-whitespace is left as it is. */
  lemma TrimKeepsUnpadded(s: JsString)
    requires s != [] ==> !IsJsWhitespace(s[0]) && !IsJsWhitespace(s[|s| - 1])
    ensures Trim(s) == s
  {
  }

  /** Whitespace appended to an unpadded string is trimmed off again. */
  lemma TrimDropsTrailing(s: JsString, c: CodeUnit)
    requires s != [] && !IsJsWhitespace(s[0]) && !IsJsWhitespace(s[|s| - 1])
    requires IsJsWhitespace(c)
    ensures Trim(s + [c]) == s
  {
    assert TrimStart(s + [c]) == s + [c];
    assert (s + [c])[..|s|] == s;
    assert TrimEnd(s) == s;
  }
}
