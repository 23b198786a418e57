/**
 * How the upstream service reads the URL it is sent: the query is the text
 * after the first `?` and before a `#`, split at `&` into segments, each split
 * at its first `=` into a name and a value (empty segments are skipped), as
 * in the application/x-www-form-urlencoded parser of the WHATWG URL Standard.
 * The pairs are kept raw, before percent-decoding.
 */
module QueryString {
  import opened Wrappers
  import opened JsText

  const QUESTION: CodeUnit := 0x3F
  const HASH: CodeUnit := 0x23
  const AMPERSAND: CodeUnit := 0x26
  const EQUALS: CodeUnit := 0x3D

  /** The text after the first `c`, or `None` when there is no `c`. */
  function After(s: JsString, c: CodeUnit): (r: Option<JsString>)
    ensures r.None? <==> c !in s
  {
    if s == [] then None
    else if s[0] == c then Some(s[1..])
    else After(s[1..], c)
  }

  /** The text before the first `c` (all of `s` when there is none). */
  function Before(s: JsString, c: CodeUnit): (r: JsString)
    ensures r <= s && c !in r
  {
    if s == [] || s[0] == c then [] else [s[0]] + Before(s[1..], c)
  }

  /** The pieces of `s` between occurrences of `sep`. */
  function Split(s: JsString, sep: CodeUnit): (r: seq<JsString>)
    ensures |r| >= 1
  {
    if s == [] then [[]]
    else if s[0] == sep then [[]] + Split(s[1..], sep)
    else
      var rest := Split(s[1..], sep);
      [[s[0]] + rest[0]] + rest[1..]
  }

  /** A segment split at its first `=`; a segment without one has an empty value. */
  function NameValue(seg: JsString): (JsString, JsString)
  {
    if seg == [] then ([], [])
    else if seg[0] == EQUALS then ([], seg[1..])
    else
      var nv := NameValue(seg[1..]);
      ([seg[0]] + nv.0, nv.1)
  }

  function Pairs(segs: seq<JsString>): seq<(JsString, JsString)>
  {
    if segs == [] then []
    else if segs[0] == [] then Pairs(segs[1..])
    else [NameValue(segs[0])] + Pairs(segs[1..])
  }

  /** The raw name/value pairs of a query string. */
  function QueryPairs(q: JsString): seq<(JsString, JsString)>
  {
    Pairs(Split(Before(q, HASH), AMPERSAND))
  }

  /** The raw name/value pairs of a URL's query; none when it has no `?`. */
  function UrlPairs(url: JsString): seq<(JsString, JsString)>
  {
    match After(url, QUESTION)
    case None => []
    case Some(q) => QueryPairs(q)
  }

  lemma {:induction false} AfterFirst(a: JsString, c: CodeUnit, b: JsString)
    requires c !in a
    ensures After(a + [c] + b, c) == Some(b)
  {
    if a != [] {
      assert (a + [c] + b)[1..] == a[1..] + [c] + b;
      AfterFirst(a[1..], c, b);
    }
  }

  lemma {:induction false} BeforeFirst(a: JsString, c: CodeUnit, b: JsString)
    requires c !in a
    ensures Before(a + b, c) == a + Before(b, c)
  {
    if a != [] {
      assert (a + b)[1..] == a[1..] + b;
      BeforeFirst(a[1..], c, b);
      assert [a[0]] + (a[1..] + Before(b, c)) == a + Before(b, c);
    } else {
      assert a + b == b;
    }
  }

  lemma {:induction false} SplitFirst(a: JsString, sep: CodeUnit, b: JsString)
    requires sep !in a
    ensures Split(a + [sep] + b, sep) == [a] + Split(b, sep)
  {
    if a != [] {
      assert (a + [sep] + b)[1..] == a[1..] + [sep] + b;
      SplitFirst(a[1..], sep, b);
      assert [a[0]] + a[1..] == a;
    }
  }

  lemma {:induction false} SplitNone(a: JsString, sep: CodeUnit)
    requires sep !in a
    ensures Split(a, sep) == [a]
  {
    if a != [] {
      SplitNone(a[1..], sep);
      assert [a[0]] + a[1..] == a;
    }
  }

  lemma {:induction false} NameValueFirst(name: JsString, value: JsString)
    requires EQUALS !in name
    ensures NameValue(name + [EQUALS] + value) == (name, value)
  {
    if name != [] {
      assert (name + [EQUALS] + value)[1..] == name[1..] + [EQUALS] + value;
      NameValueFirst(name[1..], value);
      assert [name[0]] + name[1..] == name;
    }
  }

  /** A leading segment free of `&` and `#` is read as the first pair. */
  lemma QueryPairsCons(seg: JsString, rest: JsString)
    requires seg != [] && AMPERSAND !in seg && HASH !in seg
    ensures QueryPairs(seg + [AMPERSAND] + rest) == [NameValue(seg)] + QueryPairs(rest)
  {
    assert HASH !in seg + [AMPERSAND];
    BeforeFirst(seg + [AMPERSAND], HASH, rest);
    assert Before(seg + [AMPERSAND] + rest, HASH) == seg + [AMPERSAND] + Before(rest, HASH);
    SplitFirst(seg, AMPERSAND, Before(rest, HASH));
  }

  /** A last segment free of `&` and `#` is read as one pair. */
  lemma QueryPairsLast(seg: JsString)
    requires seg != [] && AMPERSAND !in seg && HASH !in seg
    ensures QueryPairs(seg) == [NameValue(seg)]
  {
    BeforeFirst(seg, HASH, []);
    assert seg + [] == seg;
    SplitNone(seg, AMPERSAND);
    assert [seg][1..] == [];
    assert Pairs([seg]) == [NameValue(seg)] + Pairs([]);
  }

  /** The URL `base?query` carries the pairs of `query` when `base` has no `?`. */
  lemma UrlPairsOf(base: JsString, query: JsString)
    requires QUESTION !in base
    ensures UrlPairs(base + [QUESTION] + query) == QueryPairs(query)
  {
    AfterFirst(base, QUESTION, query);
  }

  /** A name and value joined by `=`, with a name free of the query's structuring characters. */
  lemma PlainSegment(name: JsString, value: JsString)
    requires name != [] && AMPERSAND !in name && HASH !in name && EQUALS !in name
    requires AMPERSAND !in value && HASH !in value
    ensures var seg := name + [EQUALS] + value;
      seg != [] && AMPERSAND !in seg && HASH !in seg && NameValue(seg) == (name, value)
  {
    NameValueFirst(name, value);
  }

  /** Names that need no escaping in a query: non-empty, without `&`, `#` or `=`. */
  predicate PlainName(n: JsString)
  {
    n != [] && AMPERSAND !in n && HASH !in n && EQUALS !in n
  }

  /** Values that need no escaping in a query: without `&` or `#`. */
  predicate PlainValue(v: JsString)
  {
    AMPERSAND !in v && HASH !in v
  }

  /** `n1=v1&n2=v2&...`, the query string that writes out a list of pairs. */
  function Join(ps: seq<(JsString, JsString)>): JsString
    requires |ps| >= 1
  {
    if |ps| == 1 then ps[0].0 + [EQUALS] + ps[0].1
    else ps[0].0 + [EQUALS] + ps[0].1 + [AMPERSAND] + Join(ps[1..])
  }

  /** Reading a joined query gives back its pairs when every name and value is plain. */
  lemma {:induction false} JoinPairs(ps: seq<(JsString, JsString)>)
    requires |ps| >= 1
    requires forall i :: 0 <= i < |ps| ==> PlainName(ps[i].0) && PlainValue(ps[i].1)
    ensures QueryPairs(Join(ps)) == ps
  {
    PlainSegment(ps[0].0, ps[0].1);
    if |ps| == 1 {
      QueryPairsLast(ps[0].0 + [EQUALS] + ps[0].1);
      assert ps == [ps[0]];
    } else {
      QueryPairsCons(ps[0].0 + [EQUALS] + ps[0].1, Join(ps[1..]));
      JoinPairs(ps[1..]);
      assert ps == [ps[0]] + ps[1..];
    }
  }
}
