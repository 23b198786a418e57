/**
 * ECMAScript's `encodeURIComponent` (percent-encoding as in section 2.1 of
 * RFC 3986: every code point outside the unreserved set becomes the `%XX`
 * escapes of its UTF-8 octets, in upper-case hexadecimal), and its inverse
 * `decodeURIComponent`, which the model uses to state what the encoding keeps.
 */
module UriComponent {
  import opened Wrappers
  import opened JsText

  type Byte = b: int | 0 <= b < 0x100

  const PERCENT: CodeUnit := 0x25

  /** URIError raised for an unpaired surrogate (V8's message). */
  const URI_MALFORMED: JsError := JsError(Units("URIError"), Units("URI malformed"))

  /** The units `encodeURIComponent` leaves as they are: A-Z a-z 0-9 - _ . ! ~ * ' ( ) */
  predicate IsUnreserved(c: CodeUnit)
  {
    || (0x41 <= c <= 0x5A) || (0x61 <= c <= 0x7A) || (0x30 <= c <= 0x39)
    || c == 0x2D || c == 0x5F || c == 0x2E || c == 0x21
    || c == 0x7E || c == 0x2A || c == 0x27 || c == 0x28 || c == 0x29
  }

  predicate IsUpperHexDigit(c: CodeUnit)
  {
    (0x30 <= c <= 0x39) || (0x41 <= c <= 0x46)
  }

  /** Every unit is unreserved or `%` (the hexadecimal digits of an escape are unreserved). */
  predicate UriSafe(e: JsString)
  {
    forall i :: 0 <= i < |e| ==> IsUnreserved(e[i]) || e[i] == PERCENT
  }

  function HexDigit(d: int): (c: CodeUnit)
    requires 0 <= d < 16
    ensures IsUpperHexDigit(c)
  {
    if d < 10 then 0x30 + d else 0x41 + (d - 10)
  }

  /** The value of a hexadecimal digit of either case, as `decodeURIComponent` reads it. */
  function HexValue(c: CodeUnit): (r: Option<int>)
    ensures r.Some? ==> 0 <= r.value < 16
  {
    if 0x30 <= c <= 0x39 then Some(c - 0x30)
    else if 0x41 <= c <= 0x46 then Some(c - 0x41 + 10)
    else if 0x61 <= c <= 0x66 then Some(c - 0x61 + 10)
    else None
  }

  /** `%XX` for one octet, in upper-case hexadecimal; reading it back gives the octet. */
  function Escape(b: Byte): (r: JsString)
    ensures |r| == 3 && r[0] == PERCENT && UriSafe(r)
    ensures IsUpperHexDigit(r[1]) && IsUpperHexDigit(r[2])
    ensures ReadEscape(r) == Some(b)
  {
    HexRoundTrip(b / 16);
    HexRoundTrip(b % 16);
    assert b == b / 16 * 16 + b % 16;
    [PERCENT, HexDigit(b / 16), HexDigit(b % 16)]
  }

  function Escapes(bs: seq<Byte>): (r: JsString)
    ensures |r| == 3 * |bs| && UriSafe(r)
  {
    if bs == [] then [] else Escape(bs[0]) + Escapes(bs[1..])
  }

  /** The UTF-8 octets of a code point (RFC 3629). */
  function Utf8(cp: CodePoint): (r: seq<Byte>)
    ensures 1 <= |r| <= 4
    ensures |r| == 1 <==> cp < 0x80
  {
    if cp < 0x80 then [cp]
    else if cp < 0x800 then [0xC0 + cp / 64, 0x80 + cp % 64]
    else if cp < 0x1_0000 then [0xE0 + cp / 64 / 64, 0x80 + cp / 64 % 64, 0x80 + cp % 64]
    else [0xF0 + cp / 64 / 64 / 64, 0x80 + cp / 64 / 64 % 64, 0x80 + cp / 64 % 64, 0x80 + cp % 64]
  }

  function PrependOk(p: JsString, r: Result<JsString, JsError>): Result<JsString, JsError>
  {
    match r
    case Ok(v) => Ok(p + v)
    case Err(e) => Err(e)
  }

  /**
   * `encodeURIComponent(s)`: walks the code units; unreserved ones are copied,
   * a surrogate pair or any other unit is replaced by the escapes of its code
   * point's UTF-8 octets, and an unpaired surrogate raises URIError.
   * Encoding never shortens a string, and its output holds only unreserved
   * units, `%` and upper-case hexadecimal digits.
   */
  function Encode(s: JsString): (r: Result<JsString, JsError>)
    ensures r.Ok? ==> |r.value| >= |s| && UriSafe(r.value)
    ensures r.Err? ==> r.error == URI_MALFORMED
    decreases |s|
  {
    if s == [] then Ok([])
    else if IsUnreserved(s[0]) then PrependOk([s[0]], Encode(s[1..]))
    else if IsHighSurrogate(s[0]) && |s| >= 2 && IsLowSurrogate(s[1]) then
      PrependOk(Escapes(Utf8(PairValue(s[0], s[1]))), Encode(s[2..]))
    else if IsSurrogate(s[0]) then Err(URI_MALFORMED)
    else PrependOk(Escapes(Utf8(s[0])), Encode(s[1..]))
  }

  /** Reads one `%XX` escape at the start of `e`. */
  function ReadEscape(e: JsString): (r: Option<Byte>)
    ensures r.Some? ==> |e| >= 3
  {
    if |e| < 3 || e[0] != PERCENT then None
    else match (HexValue(e[1]), HexValue(e[2]))
      case (Some(h), Some(l)) => Some(h * 16 + l)
      case _ => None
  }

  /** Reads `n` consecutive `%XX` escapes at the start of `e`. */
  function ReadEscapes(e: JsString, n: nat): (r: Option<seq<Byte>>)
    ensures r.Some? ==> |r.value| == n && |e| >= 3 * n
    decreases n
  {
    if n == 0 then Some([])
    else match ReadEscape(e)
      case None => None
      case Some(b) =>
        match ReadEscapes(e[3..], n - 1)
        case None => None
        case Some(bs) => Some([b] + bs)
  }

  /** How many octets a UTF-8 sequence starting with `lead` has; 0 if `lead` cannot start one. */
  function SequenceLength(lead: Byte): nat
  {
    if lead < 0x80 then 1
    else if 0xC2 <= lead < 0xE0 then 2
    else if 0xE0 <= lead < 0xF0 then 3
    else if 0xF0 <= lead < 0xF5 then 4
    else 0
  }

  predicate IsContinuation(b: Byte) { 0x80 <= b < 0xC0 }

  /** Decodes one complete UTF-8 sequence, refusing overlong forms, surrogates and values past U+10FFFF. */
  function Utf8Decode(bs: seq<Byte>): Option<CodePoint>
    requires 1 <= |bs| <= 4
  {
    if |bs| != SequenceLength(bs[0]) then None
    else if |bs| == 1 then Some(bs[0])
    else if |bs| == 2 then
      if !IsContinuation(bs[1]) then None
      else Some((bs[0] as int - 0xC0) * 64 + (bs[1] as int - 0x80))
    else if |bs| == 3 then
      if !IsContinuation(bs[1]) || !IsContinuation(bs[2]) then None
      else
        var cp := ((bs[0] as int - 0xE0) * 64 + (bs[1] as int - 0x80)) * 64 + (bs[2] as int - 0x80);
        if cp < 0x800 || IsSurrogate(cp) then None else Some(cp)
    else
      if !IsContinuation(bs[1]) || !IsContinuation(bs[2]) || !IsContinuation(bs[3]) then None
      else
        var cp := (((bs[0] as int - 0xF0) * 64 + (bs[1] as int - 0x80)) * 64 + (bs[2] as int - 0x80)) * 64
          + (bs[3] as int - 0x80);
        if cp < 0x1_0000 || cp > 0x10_FFFF then None else Some(cp)
  }

  function PrependSome(p: JsString, r: Option<JsString>): Option<JsString>
  {
    match r
    case Some(v) => Some(p + v)
    case None => None
  }

  /**
   * `decodeURIComponent(e)`, with `None` for the URIError it raises: every
   * `%XX` run that forms one valid UTF-8 sequence becomes that code point's
   * UTF-16 units; every other unit is copied.
   */
  function Decode(e: JsString): Option<JsString>
    decreases |e|
  {
    if e == [] then Some([])
    else if e[0] != PERCENT then PrependSome([e[0]], Decode(e[1..]))
    else match ReadEscape(e)
      case None => None
      case Some(lead) =>
        var n := SequenceLength(lead);
        if n == 0 then None
        else match ReadEscapes(e, n)
          case None => None
          case Some(bs) =>
            match Utf8Decode(bs)
            case None => None
            case Some(cp) => PrependSome(CodeUnitsOf(cp), Decode(e[3 * n..]))
  }

  lemma HexRoundTrip(d: int)
    requires 0 <= d < 16
    ensures HexValue(HexDigit(d)) == Some(d)
  {
  }

  lemma ReadEscapeRoundTrip(b: Byte, rest: JsString)
    ensures ReadEscape(Escape(b) + rest) == Some(b)
  {
    HexRoundTrip(b / 16);
    HexRoundTrip(b % 16);
    assert b == b / 16 * 16 + b % 16;
  }

  /** One more escape in front of escapes that read back reads back one more octet. */
  lemma ReadEscapesStep(b: Byte, bs: seq<Byte>, tail: JsString)
    requires ReadEscapes(tail, |bs|) == Some(bs)
    ensures ReadEscapes(Escape(b) + tail, |bs| + 1) == Some([b] + bs)
  {
    ReadEscapeRoundTrip(b, tail);
    assert (Escape(b) + tail)[3..] == tail;
  }

  lemma {:induction false} ReadEscapesRoundTrip(bs: seq<Byte>, rest: JsString)
    ensures ReadEscapes(Escapes(bs) + rest, |bs|) == Some(bs)
  {
    if bs != [] {
      var tail := Escapes(bs[1..]) + rest;
      ReadEscapesRoundTrip(bs[1..], rest);
      ReadEscapesStep(bs[0], bs[1..], tail);
      assert Escapes(bs) + rest == Escape(bs[0]) + tail;
      assert [bs[0]] + bs[1..] == bs;
    }
  }

  lemma Utf8RoundTrip(cp: CodePoint)
    ensures SequenceLength(Utf8(cp)[0]) == |Utf8(cp)|
    ensures Utf8Decode(Utf8(cp)) == Some(cp)
  {
    var a := cp / 64;
    var b := a / 64;
    var c := b / 64;
    assert cp == a * 64 + cp % 64;
    assert a == b * 64 + a % 64;
    assert b == c * 64 + b % 64;
  }

  /** Decoding the escapes of one encoded code point gives back its UTF-16 units. */
  lemma DecodeEscapedCodePoint(cp: CodePoint, rest: JsString)
    ensures Decode(Escapes(Utf8(cp)) + rest) == PrependSome(CodeUnitsOf(cp), Decode(rest))
  {
    var bs := Utf8(cp);
    var e := Escapes(bs) + rest;
    assert e[0] == PERCENT && ReadEscape(e) == Some(bs[0]) by {
      assert e == Escape(bs[0]) + (Escapes(bs[1..]) + rest);
      ReadEscapeRoundTrip(bs[0], Escapes(bs[1..]) + rest);
    }
    assert SequenceLength(bs[0]) == |bs| && Utf8Decode(bs) == Some(cp) by {
      Utf8RoundTrip(cp);
    }
    assert ReadEscapes(e, |bs|) == Some(bs) by {
      ReadEscapesRoundTrip(bs, rest);
    }
    assert e[3 * |bs|..] == rest;
  }

  /** One unreserved unit in front of a string that round-trips keeps it round-tripping. */
  lemma DecodeEncodeUnreserved(s: JsString)
    requires s != [] && IsUnreserved(s[0])
    requires Encode(s[1..]).Ok? && Decode(Encode(s[1..]).value) == Some(s[1..])
    ensures Encode(s).Ok? && Decode(Encode(s).value) == Some(s)
  {
    var tail := Encode(s[1..]).value;
    var e := [s[0]] + tail;
    assert Encode(s) == Ok(e);
    assert e[0] != PERCENT && e[1..] == tail;
    assert Decode(e) == PrependSome([s[0]], Decode(tail));
    assert s == [s[0]] + s[1..];
  }

  /** The escapes of one code point, of `k` units, in front of an encoding of the rest decode to the whole. */
  lemma DecodeEncodeEscaped(s: JsString, k: nat, cp: CodePoint, tail: JsString)
    requires k <= |s| && s[..k] == CodeUnitsOf(cp)
    requires Decode(tail) == Some(s[k..])
    ensures Decode(Escapes(Utf8(cp)) + tail) == Some(s)
  {
    assert Decode(Escapes(Utf8(cp)) + tail) == Some(s[..k] + s[k..]) by {
      DecodeEscapedCodePoint(cp, tail);
    }
    assert s[..k] + s[k..] == s;
  }

  /** decodeURIComponent(encodeURIComponent(s)) == s whenever the encoding succeeds. */
  lemma {:induction false} DecodeEncode(s: JsString)
    requires Encode(s).Ok?
    ensures Decode(Encode(s).value) == Some(s)
    decreases |s|
  {
    if s == [] {
    } else if IsUnreserved(s[0]) {
      DecodeEncode(s[1..]);
      DecodeEncodeUnreserved(s);
    } else if IsHighSurrogate(s[0]) && |s| >= 2 && IsLowSurrogate(s[1]) {
      DecodeEncode(s[2..]);
      var cp := PairValue(s[0], s[1]);
      PairRoundTrip(s[0], s[1]);
      assert Encode(s) == Ok(Escapes(Utf8(cp)) + Encode(s[2..]).value);
      DecodeEncodeEscaped(s, 2, cp, Encode(s[2..]).value);
    } else {
      DecodeEncode(s[1..]);
      assert Encode(s) == Ok(Escapes(Utf8(s[0])) + Encode(s[1..]).value);
      DecodeEncodeEscaped(s, 1, s[0], Encode(s[1..]).value);
    }
  }

  /** A string made only of unreserved units is its own encoding. */
  lemma {:induction false} EncodeKeepsUnreserved(s: JsString)
    requires forall i :: 0 <= i < |s| ==> IsUnreserved(s[i])
    ensures Encode(s) == Ok(s)
    decreases |s|
  {
    if s != [] {
      EncodeKeepsUnreserved(s[1..]);
      assert [s[0]] + s[1..] == s;
    }
  }

  /** The encoding contains no `&`, `#` or `=`, so it cannot end or break a query parameter. */
  lemma UriSafeHasNoDelimiters(e: JsString)
    requires UriSafe(e)
    ensures 0x26 !in e && 0x23 !in e && 0x3D !in e
  {
    forall i | 0 <= i < |e| ensures e[i] != 0x26 && e[i] != 0x23 && e[i] != 0x3D {
    }
  }

  /** Two strings with the same encoding are equal: the encoding loses nothing. */
  lemma EncodeInjective(s: JsString, t: JsString)
    requires Encode(s).Ok? && Encode(t).Ok? && Encode(s) == Encode(t)
    ensures s == t
  {
    DecodeEncode(s);
    DecodeEncode(t);
  }

  /** The encoding succeeds exactly on the strings without an unpaired surrogate. */
  lemma {:induction false} EncodeOkIffWellFormed(s: JsString)
    ensures Encode(s).Ok? <==> WellFormedUtf16(s)
    decreases |s|
  {
    if s == [] {
    } else if IsHighSurrogate(s[0]) && |s| >= 2 && IsLowSurrogate(s[1]) {
      EncodeOkIffWellFormed(s[2..]);
      TailWellFormed(s, 2);
    } else if IsSurrogate(s[0]) {
      assert !WellPlaced(s, 0);
    } else {
      EncodeOkIffWellFormed(s[1..]);
      TailWellFormed(s, 1);
    }
  }

  /**
   * When `s[..k]` is one non-surrogate unit or one surrogate pair, `s` is
   * well formed exactly when the rest is.
   */
  lemma TailWellFormed(s: JsString, k: nat)
    requires k == 1 || k == 2
    requires k <= |s|
    requires k == 1 ==> !IsSurrogate(s[0])
    requires k == 2 ==> IsHighSurrogate(s[0]) && IsLowSurrogate(s[1])
    ensures WellFormedUtf16(s) <==> WellFormedUtf16(s[k..])
  {
    var t := s[k..];
    if WellFormedUtf16(t) {
      forall i | 0 <= i < |s| ensures WellPlaced(s, i) {
        if i >= k {
          assert WellPlaced(t, i - k);
          assert s[i] == t[i - k];
          if IsHighSurrogate(s[i]) {
            assert s[i + 1] == t[i - k + 1];
          }
          if IsLowSurrogate(s[i]) {
            assert i > k && s[i - 1] == t[i - k - 1];
          }
        }
      }
    }
    if WellFormedUtf16(s) {
      forall j | 0 <= j < |t| ensures WellPlaced(t, j) {
        assert WellPlaced(s, j + k);
        assert t[j] == s[j + k];
        if IsHighSurrogate(t[j]) {
          assert t[j + 1] == s[j + k + 1];
        }
        if IsLowSurrogate(t[j]) {
          assert j > 0 && t[j - 1] == s[j + k - 1];
        }
      }
    }
  }
}
