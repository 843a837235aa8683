/** The query half of URL canonicalisation. */
module QueryForm {
  import opened Percent
  import opened Wrappers
  import opened Seqs

  datatype Pair = Pair(k: Text, v: Text)

  const BLANK := Pair([], [])

  /** `quote` with nothing declared safe. */
  function NoneSafe(): Byte -> bool {
    (c: Byte) => false
  }

  /** In a query only the unreserved characters stay as they are. */
  lemma KeptIs(c: Byte)
    ensures QuoteByte(c, NoneSafe()) == [c] <==> Unreserved(c)
  {
    AlwaysSafeIs(c);
    hide AlwaysSafe, Unreserved;
  }

  // ---------- Parsing ----------

  function Before(s: Text, c: Byte): (w: Text)
    ensures w <= s && c !in w && (|w| < |s| ==> s[|w|] == c)
  {
    if s == [] || s[0] == c then [] else [s[0]] + Before(s[1..], c)
  }

  /** Python's `split('&')`: always at least one segment. */
  function Split(s: Text): (segments: seq<Text>)
    ensures segments != []
    decreases |s|
  {
    var w := Before(s, '&');
    if |w| == |s| then [w] else [w] + Split(s[|w| + 1..])
  }

  function PlusToSpace(s: Text): Text {
    if s == [] then [] else [if s[0] == '+' then ' ' else s[0]] + PlusToSpace(s[1..])
  }

  function Decode(s: Text): Text {
    Unquote(PlusToSpace(s))
  }

  /** Empty segments are skipped; a segment without `=` has an empty value. */
  function ParseSegment(s: Text): Option<Pair> {
    var k := Before(s, '=');
    if s == [] then None
    else if |k| == |s| then Some(Pair(Decode(k), []))
    else Some(Pair(Decode(k), Decode(s[|k| + 1..])))
  }

  function ParseAll(segments: seq<Text>): seq<Pair> {
    if segments == [] then []
    else
      var p := ParseSegment(segments[0]);
      (if p.Some? then [p.value] else []) + ParseAll(segments[1..])
  }

  // ---------- Tracking parameters ----------

  function Lower(s: Text): (r: Text)
    ensures |r| == |s|
  {
    if s == [] then [] else [if 'A' <= s[0] <= 'Z' then s[0] - 'A' + 'a' else s[0]] + Lower(s[1..])
  }

  const TRACKING: set<string> :=
    {"fbclid", "gclid", "dclid", "msclkid", "mc_cid", "mc_eid", "_hsenc", "_hsmi", "mkt_tok",
     "ref", "ref_src", "igshid", "igsh", "si", "yclid", "gbraid", "wbraid"}

  predicate IsTracking(key: Text) {
    key in TRACKING || "utm_" <= Lower(key)
  }

  /** Each plus sign is a space, and nothing else changes. */
  lemma {:induction false} PlusToSpaceIs(s: Text)
    ensures |PlusToSpace(s)| == |s|
    ensures forall i :: 0 <= i < |s| ==> PlusToSpace(s)[i] == if s[i] == '+' then ' ' else s[i]
    decreases |s|
  {
    if s != [] {
      PlusToSpaceIs(s[1..]);
    }
  }

  /** The keys that are dropped: a list of names as they are written, and whatever starts with `utm_` in any
      case. */
  lemma TrackingIs(key: Text)
    ensures IsTracking(key)
       <==> key in {"fbclid", "gclid", "dclid", "msclkid", "mc_cid", "mc_eid", "_hsenc", "_hsmi", "mkt_tok",
                    "ref", "ref_src", "igshid", "igsh", "si", "yclid", "gbraid", "wbraid"}
            || (|key| >= 4 && key[0] in {'u', 'U'} && key[1] in {'t', 'T'} && key[2] in {'m', 'M'} && key[3] == '_')
  {
    LowerIs(key);
    var prefix, low := "utm_", Lower(key);
    assert prefix <= low <==> |low| >= 4 && low[0] == 'u' && low[1] == 't' && low[2] == 'm' && low[3] == '_';
  }

  lemma {:induction false} LowerIs(s: Text)
    ensures forall i :: 0 <= i < |s| ==> Lower(s)[i] == if 'A' <= s[i] <= 'Z' then s[i] - 'A' + 'a' else s[i]
    decreases |s|
  {
    if s != [] {
      LowerIs(s[1..]);
    }
  }

  function Wanted(): Pair -> bool {
    (p: Pair) => !IsTracking(p.k)
  }

  function Kept(query: Text): seq<Pair> {
    Filter(ParseAll(Split(query)), Wanted())
  }

  // ---------- Sorting ----------

  /** Strings compare byte by byte, a proper prefix first. */
  predicate TextLe(a: Text, b: Text) {
    a == [] || (b != [] && (a[0] < b[0] || (a[0] == b[0] && TextLe(a[1..], b[1..]))))
  }

  predicate PairLe(p: Pair, q: Pair) {
    if p.k == q.k then TextLe(p.v, q.v) else TextLe(p.k, q.k)
  }

  function Insert(p: Pair, ps: seq<Pair>): seq<Pair> {
    if ps == [] || PairLe(p, ps[0]) then [p] + ps else [ps[0]] + Insert(p, ps[1..])
  }

  function Sort(ps: seq<Pair>): seq<Pair> {
    if ps == [] then [] else Insert(ps[0], Sort(ps[1..]))
  }

  ghost predicate Sorted(ps: seq<Pair>) {
    forall i, j :: 0 <= i <= j < |ps| ==> PairLe(ps[i], ps[j])
  }

  // ---------- Printing ----------

  function Encode(p: Pair): Text {
    Quote(p.k, NoneSafe()) + if p.v == [] then [] else ['='] + Quote(p.v, NoneSafe())
  }

  function EncodeAll(ps: seq<Pair>): (segments: seq<Text>)
    ensures |segments| == |ps| && forall i :: 0 <= i < |ps| ==> segments[i] == Encode(ps[i])
  {
    if ps == [] then [] else [Encode(ps[0])] + EncodeAll(ps[1..])
  }

  function Join(segments: seq<Text>): Text {
    if segments == [] then []
    else if |segments| == 1 then segments[0]
    else segments[0] + ['&'] + Join(segments[1..])
  }

  function Normal(query: Text): Text {
    Join(EncodeAll(Sort(Kept(query))))
  }

  // ---------- The order ----------

  lemma {:induction false} TextLeTotal(a: Text, b: Text)
    ensures TextLe(a, b) || TextLe(b, a)
    ensures TextLe(a, b) && TextLe(b, a) ==> a == b
    decreases |a|
  {
    if a != [] && b != [] && a[0] == b[0] {
      TextLeTotal(a[1..], b[1..]);
      assert a == [a[0]] + a[1..] && b == [b[0]] + b[1..];
    }
  }

  lemma {:induction false} TextLeTransitive(a: Text, b: Text, c: Text)
    requires TextLe(a, b) && TextLe(b, c)
    ensures TextLe(a, c)
    decreases |a|
  {
    if a != [] && a[0] == b[0] == c[0] {
      TextLeTransitive(a[1..], b[1..], c[1..]);
    }
  }

  lemma PairLeTotal(p: Pair, q: Pair)
    ensures PairLe(p, q) || PairLe(q, p)
    ensures PairLe(p, q) && PairLe(q, p) ==> p == q
    ensures PairLe(p, p)
  {
    TextLeTotal(p.k, q.k);
    TextLeTotal(p.v, q.v);
    TextLeTotal(p.v, p.v);
  }

  lemma PairLeTransitive(p: Pair, q: Pair, r: Pair)
    requires PairLe(p, q) && PairLe(q, r)
    ensures PairLe(p, r)
  {
    TextLeTotal(p.k, q.k);
    if p.k == q.k == r.k {
      TextLeTransitive(p.v, q.v, r.v);
    } else {
      if p.k != q.k && q.k != r.k {
        TextLeTransitive(p.k, q.k, r.k);
      }
    }
  }

  lemma {:induction false} InsertSorts(p: Pair, ps: seq<Pair>)
    requires Sorted(ps)
    ensures Sorted(Insert(p, ps)) && multiset(Insert(p, ps)) == multiset(ps) + multiset{p}
    decreases |ps|
  {
    hide PairLe;
    PairLeTotal(p, p);
    if ps == [] {
    } else if PairLe(p, ps[0]) {
      forall j | 0 <= j < |ps| ensures PairLe(p, ps[j]) {
        PairLeTransitive(p, ps[0], ps[j]);
      }
    } else {
      PairLeTotal(p, ps[0]);
      var rest := Insert(p, ps[1..]);
      assert ps == [ps[0]] + ps[1..];
      InsertSorts(p, ps[1..]);
      forall j | 0 <= j < |rest| ensures PairLe(ps[0], rest[j]) {
        assert rest[j] in multiset(rest);
        if rest[j] != p {
          assert rest[j] in ps[1..];
        }
      }
      PairLeTotal(ps[0], ps[0]);
    }
  }

  /** `sort`: ascending, the same pairs. */
  lemma {:induction false} SortSorts(ps: seq<Pair>)
    ensures Sorted(Sort(ps)) && multiset(Sort(ps)) == multiset(ps)
    decreases |ps|
  {
    if ps != [] {
      SortSorts(ps[1..]);
      InsertSorts(ps[0], Sort(ps[1..]));
      assert ps == [ps[0]] + ps[1..];
    }
  }

  lemma HeadsAgree(ps: seq<Pair>, qs: seq<Pair>)
    requires Sorted(ps) && Sorted(qs) && multiset(ps) == multiset(qs) && ps != []
    ensures qs != [] && ps[0] == qs[0]
  {
    assert ps[0] in multiset(qs);
    assert qs != [] && qs[0] in multiset(ps);
    hide PairLe;
    var i :| 0 <= i < |qs| && qs[i] == ps[0];
    var j :| 0 <= j < |ps| && ps[j] == qs[0];
    PairLeTotal(ps[0], qs[0]);
  }

  /** There is only one way to sort. */
  lemma {:induction false} SortedUnique(ps: seq<Pair>, qs: seq<Pair>)
    requires Sorted(ps) && Sorted(qs) && multiset(ps) == multiset(qs)
    ensures ps == qs
    decreases |ps|
  {
    hide PairLe;
    if ps == [] {
      assert |multiset(qs)| == 0;
    } else {
      HeadsAgree(ps, qs);
      assert ps == [ps[0]] + ps[1..] && qs == [qs[0]] + qs[1..];
      assert multiset(ps[1..]) == multiset(ps) - multiset{ps[0]};
      SortedUnique(ps[1..], qs[1..]);
    }
  }

  // ---------- Printing and parsing ----------

  lemma {:induction false} NoPlus(s: Text)
    requires '+' !in s
    ensures PlusToSpace(s) == s
    decreases |s|
  {
    if s != [] {
      assert s[0] in s;
      NoPlus(s[1..]);
    }
  }

  lemma DecodeQuote(s: Text)
    ensures Decode(Quote(s, NoneSafe())) == s
  {
    QuoteHides(s, NoneSafe(), '+');
    NoPlus(Quote(s, NoneSafe()));
    UnquoteQuote(s, NoneSafe());
  }

  lemma {:induction false} BeforeWord(w: Text, rest: Text, c: Byte)
    requires c !in w && (rest != [] ==> rest[0] == c)
    ensures Before(w + rest, c) == w
    decreases |w|
  {
    if w == [] {
      assert w + rest == rest;
    } else {
      assert (w + rest)[1..] == w[1..] + rest && w[0] in w;
      BeforeWord(w[1..], rest, c);
    }
  }

  lemma EncodeHides(p: Pair)
    ensures '&' !in Encode(p)
  {
    QuoteHides(p.k, NoneSafe(), '&');
    QuoteHides(p.v, NoneSafe(), '&');
  }

  lemma ParseKeyOnly(k: Text)
    requires '=' !in k && k != []
    ensures ParseSegment(k) == Some(Pair(Decode(k), []))
  {
    BeforeWord(k, [], '=');
    assert k + [] == k;
  }

  lemma ParseKeyValue(k: Text, v: Text)
    requires '=' !in k
    ensures ParseSegment(k + (['='] + v)) == Some(Pair(Decode(k), Decode(v)))
  {
    var rest := ['='] + v;
    BeforeWord(k, rest, '=');
    assert (k + rest)[|k| + 1..] == v;
  }

  /** Printing a pair and parsing the segment gives the pair back, except that nothing is printed
      for the blank one. */
  lemma ParseEncode(p: Pair)
    ensures ParseSegment(Encode(p)) == if p == BLANK then None else Some(p)
  {
    var k, v := Quote(p.k, NoneSafe()), Quote(p.v, NoneSafe());
    QuoteHides(p.k, NoneSafe(), '=');
    DecodeQuote(p.k);
    DecodeQuote(p.v);
    QuoteEmpty(p.k, NoneSafe());
    hide Quote, Decode;
    if p.v != [] {
      ParseKeyValue(k, v);
    } else {
      assert Encode(p) == k;
      if k != [] {
        ParseKeyOnly(k);
      }
    }
  }

  function NotBlank(): Pair -> bool {
    (p: Pair) => p != BLANK
  }

  lemma {:induction false} ParseAllEncode(ps: seq<Pair>)
    ensures ParseAll(EncodeAll(ps)) == Filter(ps, NotBlank())
    decreases |ps|
  {
    if ps != [] {
      ParseEncode(ps[0]);
      ParseAllEncode(ps[1..]);
      hide ParseSegment, Encode;
      assert EncodeAll(ps)[1..] == EncodeAll(ps[1..]);
    }
  }

  lemma {:induction false} SplitJoin(segments: seq<Text>)
    requires segments != [] && forall i :: 0 <= i < |segments| ==> '&' !in segments[i]
    ensures Split(Join(segments)) == segments
    decreases |segments|
  {
    var w := segments[0];
    var rest := if |segments| == 1 then [] else ['&'] + Join(segments[1..]);
    assert Join(segments) == w + rest;
    BeforeWord(w, rest, '&');
    hide Before;
    if |segments| > 1 {
      SplitJoin(segments[1..]);
      assert (w + rest)[|w| + 1..] == Join(segments[1..]);
    }
  }

  lemma SplitPrinted(ps: seq<Pair>)
    ensures Split(Join(EncodeAll(ps))) == if ps == [] then [[]] else EncodeAll(ps)
  {
    if ps == [] {
      assert Before([], '&') == [];
    } else {
      forall i | 0 <= i < |ps| ensures '&' !in EncodeAll(ps)[i] {
        EncodeHides(ps[i]);
      }
      SplitJoin(EncodeAll(ps));
    }
  }

  lemma ParsePrinted(ps: seq<Pair>)
    ensures ParseAll(Split(Join(EncodeAll(ps)))) == Filter(ps, NotBlank())
  {
    SplitPrinted(ps);
    ParseAllEncode(ps);
    assert ParseAll([[]]) == [];
  }

  ghost predicate Nothing(ps: seq<Pair>) {
    ps == [] || ps == [BLANK]
  }

  /** Printed lists of pairs can be told apart, but for the empty list and the lone blank pair. */
  lemma PrintedInjective(ps: seq<Pair>, qs: seq<Pair>)
    ensures Join(EncodeAll(ps)) == Join(EncodeAll(qs)) <==> ps == qs || (Nothing(ps) && Nothing(qs))
  {
    SplitPrinted(ps);
    SplitPrinted(qs);
    BlankPrintsNothing();
    hide Join, EncodeAll, Split, Encode;
    if Join(EncodeAll(ps)) == Join(EncodeAll(qs)) && ps != qs {
      if ps != [] && qs != [] {
        SameEncodings(ps, qs);
      } else if ps == [] {
        OnlyBlank(qs);
      } else {
        OnlyBlank(ps);
      }
    }
  }

  lemma BlankPrintsNothing()
    ensures Encode(BLANK) == [] && Join(EncodeAll([BLANK])) == [] && Join(EncodeAll([])) == []
  {
  }

  lemma SameEncodings(ps: seq<Pair>, qs: seq<Pair>)
    requires EncodeAll(ps) == EncodeAll(qs)
    ensures ps == qs
  {
    assert |ps| == |EncodeAll(ps)| == |EncodeAll(qs)| == |qs|;
    forall i | 0 <= i < |ps| ensures ps[i] == qs[i] {
      ParseEncode(ps[i]);
      ParseEncode(qs[i]);
      assert EncodeAll(ps)[i] == EncodeAll(qs)[i];
    }
  }

  lemma OnlyBlank(qs: seq<Pair>)
    requires qs != [] && EncodeAll(qs) == [[]]
    ensures qs == [BLANK]
  {
    ParseEncode(qs[0]);
    assert Encode(qs[0]) == EncodeAll(qs)[0];
  }

  // ---------- What the normal form says ----------

  lemma SortNothing(ps: seq<Pair>)
    ensures Nothing(Sort(ps)) <==> Nothing(ps)
  {
    SortSorts(ps);
    assert |multiset(ps)| == |ps| && |multiset(Sort(ps))| == |Sort(ps)|;
    if |ps| == 1 {
      assert ps == [ps[0]] && ps[0] in multiset(Sort(ps));
    }
  }

  /** Two queries have the same normal form exactly when the same decoded pairs are kept from both,
      as often, in whatever order; only a lone blank pair cannot be told from none. */
  lemma SameQueryIff(p: Text, q: Text)
    ensures Normal(p) == Normal(q) <==>
            multiset(Kept(p)) == multiset(Kept(q)) || (Nothing(Kept(p)) && Nothing(Kept(q)))
  {
    PrintedInjective(Sort(Kept(p)), Sort(Kept(q)));
    SortSorts(Kept(p));
    SortSorts(Kept(q));
    SortNothing(Kept(p));
    SortNothing(Kept(q));
    hide Sort, Kept, Join, Sorted;
    if multiset(Kept(p)) == multiset(Kept(q)) {
      SortedUnique(Sort(Kept(p)), Sort(Kept(q)));
    }
  }

  lemma ParseStep(a: seq<Text>)
    requires a != []
    ensures ParseAll(a) == ParseAll([a[0]]) + ParseAll(a[1..])
  {
    var one: seq<Text> := [a[0]];
    assert |one[1..]| == 0;
    hide ParseSegment;
  }

  lemma {:induction false} ParseConcat(a: seq<Text>, b: seq<Text>)
    ensures ParseAll(a + b) == ParseAll(a) + ParseAll(b)
    decreases |a|
  {
    if a == [] {
      assert a + b == b && ParseAll([]) == [];
    } else {
      assert (a + b)[1..] == a[1..] + b && (a + b)[0] == a[0];
      hide ParseAll;
      ParseConcat(a[1..], b);
      ParseStep(a);
      ParseStep(a + b);
    }
  }

  function KeptOf(segments: seq<Text>): seq<Pair> {
    Filter(ParseAll(segments), Wanted())
  }

  lemma KeptConcat(a: seq<Text>, b: seq<Text>)
    ensures KeptOf(a + b) == KeptOf(a) + KeptOf(b)
  {
    ParseConcat(a, b);
    FilterConcat(ParseAll(a), ParseAll(b), Wanted());
  }

  lemma CutAt<T>(s: seq<T>, i: nat)
    requires i < |s|
    ensures s == s[..i] + [s[i]] + s[i + 1..]
  {
  }

  lemma RestsAgree<T>(x: T, r: seq<T>, p: seq<T>, s: seq<T>)
    requires multiset([x] + r) == multiset(p + [x] + s)
    ensures multiset(r) == multiset(p + s)
  {
    CountWithout(p, x, s);
    assert multiset([x] + r) == multiset(r) + multiset{x};
    Balance(multiset(r), multiset(p + s), x);
  }

  lemma CountWithout<T>(p: seq<T>, x: T, s: seq<T>)
    ensures multiset(p + [x] + s) == multiset(p + s) + multiset{x}
  {
  }

  lemma Balance<T>(m: multiset<T>, n: multiset<T>, x: T)
    requires m + multiset{x} == n + multiset{x}
    ensures m == n
  {
    assert m == (m + multiset{x}) - multiset{x};
    assert n == (n + multiset{x}) - multiset{x};
  }

  lemma {:induction false} KeptPermutation(a: seq<Text>, b: seq<Text>)
    requires multiset(a) == multiset(b)
    ensures multiset(KeptOf(a)) == multiset(KeptOf(b))
    decreases |a|
  {
    if a == [] {
      assert |multiset(b)| == 0;
    } else {
      assert a[0] in multiset(b);
      var i :| 0 <= i < |b| && b[i] == a[0];
      var one, rest, before, after := [a[0]], a[1..], b[..i], b[i + 1..];
      assert a == one + rest;
      CutAt(b, i);
      hide KeptOf;
      RestsAgree(a[0], rest, before, after);
      KeptPermutation(rest, before + after);
      KeptConcat(one, rest);
      KeptConcat(before, after);
      KeptConcat(before + one, after);
      KeptConcat(before, one);
    }
  }

  /** Reordering the segments of a query does not change its normal form. */
  lemma OrderDoesNotMatter(p: Text, q: Text)
    requires multiset(Split(p)) == multiset(Split(q))
    ensures Normal(p) == Normal(q)
  {
    KeptPermutation(Split(p), Split(q));
    SameQueryIff(p, q);
  }

  lemma {:induction false} FilterSorted(ps: seq<Pair>, keep: Pair -> bool)
    requires Sorted(ps)
    ensures Sorted(Filter(ps, keep))
    decreases |ps|
  {
    hide PairLe;
    if ps != [] {
      FilterSorted(ps[1..], keep);
      assert forall p :: p in ps[1..] ==> PairLe(ps[0], p);
      assert PairLe(ps[0], ps[0]);
    }
  }

  /** Normalising again drops the blank pairs, and nothing else. */
  lemma KeptAgain(query: Text)
    ensures Kept(Normal(query)) == Filter(Sort(Kept(query)), NotBlank())
  {
    var sorted := Sort(Kept(query));
    ParsePrinted(sorted);
    SortSorts(Kept(query));
    var again := Filter(sorted, NotBlank());
    forall p | p in again ensures Wanted()(p) {
      assert p in multiset(sorted);
      assert p in Kept(query);
    }
    FilterAll(again, Wanted());
  }

  lemma BlankFromEquals(query: Text)
    ensures BLANK in Kept(query) <==> ['='] in Split(query)
  {
    BlankIn(Split(query));
    BlankWanted();
    hide ParseAll, Split, Wanted;
  }

  lemma BlankWanted()
    ensures Wanted()(BLANK)
  {
  }

  lemma {:induction false} BlankIn(segments: seq<Text>)
    ensures BLANK in ParseAll(segments) <==> ['='] in segments
    decreases |segments|
  {
    if segments != [] {
      BlankSegment(segments[0]);
      BlankIn(segments[1..]);
      hide ParseSegment;
      assert segments == [segments[0]] + segments[1..];
    }
  }

  lemma BlankSegment(s: Text)
    ensures ParseSegment(s) == Some(BLANK) <==> s == ['=']
  {
    var k := Before(s, '=');
    DecodeEmpty(k);
    if |k| < |s| {
      DecodeEmpty(s[|k| + 1..]);
    }
  }

  lemma DecodeEmpty(s: Text)
    ensures Decode(s) == [] <==> s == []
  {
  }

  lemma NormalAgain(query: Text)
    ensures Normal(Normal(query)) == Join(EncodeAll(Filter(Sort(Kept(query)), NotBlank())))
  {
    hide Join, EncodeAll, Filter, Sort, Kept;
    var again := Filter(Sort(Kept(query)), NotBlank());
    KeptAgain(query);
    SortSorts(Kept(query));
    FilterSorted(Sort(Kept(query)), NotBlank());
    SortSorts(again);
    SortedUnique(Sort(again), again);
  }

  /** Normalising a query twice is normalising it once exactly when no segment is a bare `=`, or the
      one pair kept is that one. */
  lemma IdempotentIff(query: Text)
    ensures Normal(Normal(query)) == Normal(query) <==> ['='] !in Split(query) || Kept(query) == [BLANK]
  {
    var sorted := Sort(Kept(query));
    var again := Filter(sorted, NotBlank());
    NormalAgain(query);
    SortSorts(Kept(query));
    PrintedInjective(again, sorted);
    SortNothing(Kept(query));
    BlankFromEquals(query);
    hide Join, EncodeAll, Sort, Kept, Split, Sorted;
    assert BLANK in Kept(query) <==> BLANK in multiset(sorted);
    if BLANK !in sorted {
      FilterAll(sorted, NotBlank());
    }
  }

  lemma PlainPair(k: Byte, v: Byte)
    requires AlwaysSafe(k) && AlwaysSafe(v)
    ensures var s: Text := [k, '=', v];
            Before(s, '&') == s && ParseSegment(s) == Some(Pair([k], [v])) && Encode(Pair([k], [v])) == s
  {
    ParseEncode(Pair([k], [v]));
    EncodeHides(Pair([k], [v]));
    assert Quote([k], NoneSafe()) == [k] && Quote([v], NoneSafe()) == [v];
    assert [k] + (['='] + [v]) == [k, '=', v];
    BeforeWord([k, '=', v], [], '&');
    assert [k, '=', v] + [] == [k, '=', v];
  }

  lemma OneLetterWanted(p: Pair)
    requires |p.k| == 1
    ensures Wanted()(p)
  {
  }

  lemma TwoSegments(x: Text, y: Text, p: Pair, q: Pair)
    requires ParseSegment(x) == Some(p) && ParseSegment(y) == Some(q)
    ensures ParseAll([x, y]) == [p, q]
  {
    hide ParseSegment;
    var both: seq<Text> := [x, y];
    var last: seq<Text> := [y];
    var none: seq<Text> := [];
    assert ParseAll(none) == [];
    assert last[1..] == none;
    assert ParseAll(last) == [q];
    assert both[1..] == last;
  }

  lemma BareEqualsBeside(query: Text, word: Text, p: Pair)
    requires Split(query) == [word, ['=']] && ParseSegment(word) == Some(p) && p.k != [] && Wanted()(p)
    ensures Normal(Normal(query)) != Normal(query)
  {
    BlankSegment(['=']);
    IdempotentIff(query);
    hide *;
    TwoSegments(word, ['='], p, BLANK);
    KeptHas(query, p);
    BlankIsNot(p);
  }

  /** `a=1&=` normalises to `&a=1`, and that to `a=1`. */
  lemma NotAlwaysIdempotent()
    ensures var query: Text := "a=1&="; Normal(Normal(query)) != Normal(query)
  {
    var query: Text := "a=1&=";
    var word: Text := query[..3];
    var p := Pair(['a'], ['1']);
    EqualsSplits(query);
    WordParses(word);
    OneLetterWanted(p);
    hide *;
    BareEqualsBeside(query, word, p);
  }

  lemma WordParses(word: Text)
    requires |word| == 3 && word[0] == 'a' && word[1] == '=' && word[2] == '1'
    ensures ParseSegment(word) == Some(Pair(['a'], ['1']))
  {
    PlainPair('a', '1');
    assert word == ['a', '=', '1'];
  }

  lemma KeptHas(query: Text, p: Pair)
    requires p in ParseAll(Split(query)) && Wanted()(p)
    ensures p in Kept(query)
  {
  }

  lemma BlankIsNot(p: Pair)
    requires p.k != []
    ensures p !in [BLANK]
  {
  }

  lemma EqualsSplits(query: Text)
    requires query == "a=1&="
    ensures Split(query) == [query[..3], ['=']]
  {
    var pair: Text := query[..3];
    PlainPair('a', '1');
    assert pair == ['a', '=', '1'];
    BeforeWord(pair, query[3..], '&');
    assert query == pair + query[3..];
    assert query[4..] == ['='];
    BeforeWord(['='], [], '&');
    assert ['='] + [] == ['='];
  }

  lemma EmptyQuery()
    ensures Normal([]) == []
  {
    assert Split([]) == [[]] && ParseAll([[]]) == [];
  }

  lemma PrintedSegments(query: Text, segments: seq<Text>)
    requires |segments| == |Sort(Kept(query))|
    requires forall k :: 0 <= k < |segments| ==> segments[k] == Encode(Sort(Kept(query))[k])
    ensures Join(segments) == Normal(query)
  {
    hide Encode, Sort, Kept, Join;
    assert segments == EncodeAll(Sort(Kept(query)));
  }

  /** `_normalize_query` */
  method NormalizeQuery(query: Text) returns (out: Text)
    ensures out == Normal(query)
  {
    hide *;
    if query == [] {
      EmptyQuery();
      return [];
    }
    var filtered := Sort(Kept(query));
    var segments: seq<Text> := [];
    for i := 0 to |filtered|
      invariant |segments| == i && forall k :: 0 <= k < i ==> segments[k] == Encode(filtered[k])
    {
      segments := segments + [Encode(filtered[i])];
    }
    PrintedSegments(query, segments);
    out := Join(segments);
  }
}
