/** The path half of URL canonicalisation. */
module PathForm {
  import opened Percent

  /** Kept as they are in a path, beside the unreserved characters. */
  function PathSafe(): Byte -> bool {
    (c: Byte) => c in "/-._~!$&'()*+,;=:@"
  }

  /** The characters of a path segment in RFC 3986, section 3.3, escapes aside: unreserved ones,
      sub-delimiters, and two more. */
  predicate PChar(c: Byte) {
    Unreserved(c) || c in "!$&'()*+,;=" || c == ':' || c == '@'
  }

  /** The normal form leaves as they are exactly those characters and the slash. */
  lemma KeptIs(c: Byte)
    ensures QuoteByte(c, PathSafe()) == [c] <==> PChar(c) || c == '/'
  {
    AlwaysSafeIs(c);
    hide AlwaysSafe, UPPER, LOWER, DIGITS;
  }

  const ROOT: Text := ['/']

  // ---------- What a path means ----------

  ghost predicate SlashFree(w: Text) {
    '/' !in w
  }

  /** The longest slash-free prefix. */
  function Span(s: Text): (w: Text)
    ensures w <= s && SlashFree(w) && (|w| < |s| ==> s[|w|] == '/') && (s != [] && s[0] != '/' ==> w != [])
  {
    if s == [] || s[0] == '/' then [] else [s[0]] + Span(s[1..])
  }

  /** The non-empty components between slashes. */
  function Components(s: Text): (cs: seq<Text>)
    ensures forall k :: 0 <= k < |cs| ==> cs[k] != [] && SlashFree(cs[k])
    decreases |s|
  {
    if s == [] then []
    else if s[0] == '/' then Components(s[1..])
    else [Span(s)] + Components(s[|Span(s)|..])
  }

  function Join(cs: seq<Text>): Text {
    if cs == [] then []
    else if |cs| == 1 then cs[0]
    else cs[0] + ['/'] + Join(cs[1..])
  }

  /** The plain path with these components: single slashes, none at the end. */
  function Build(rooted: bool, cs: seq<Text>): Text {
    (if rooted then ['/'] else []) + Join(cs)
  }

  predicate Rooted(path: Text) {
    path == [] || Unquote(path)[..1] == "/"
  }

  /** The normal form: the decoded components, joined and encoded again. */
  function Normal(path: Text): Text {
    Quote(Build(Rooted(path), Components(Unquote(path))), PathSafe())
  }

  // ---------- Slashes ----------

  /** What the loop of `_collapse_slashes` still emits, given whether a slash was just seen. */
  function Collapse(s: Text, prevSlash: bool): Text {
    if s == [] then []
    else if s[0] == '/' then (if prevSlash then [] else ['/']) + Collapse(s[1..], true)
    else [s[0]] + Collapse(s[1..], false)
  }

  /** `"//" in s` */
  predicate HasDouble(s: Text) {
    |s| >= 2 && ((s[0] == '/' && s[1] == '/') || HasDouble(s[1..]))
  }

  lemma {:induction false} NothingToCollapse(s: Text, prevSlash: bool)
    requires !HasDouble(s) && (prevSlash && s != [] ==> s[0] != '/')
    ensures Collapse(s, prevSlash) == s
    decreases |s|
  {
    if s != [] {
      NothingToCollapse(s[1..], s[0] == '/');
    }
  }

  lemma CollapseStep(out: Text, path: Text, i: nat, prevSlash: bool)
    requires i < |path|
    ensures out + Collapse(path[i..], prevSlash)
         == (if path[i] == '/' && prevSlash then out else out + [path[i]]) + Collapse(path[i + 1..], path[i] == '/')
  {
    assert path[i..][1..] == path[i + 1..];
    var rest := Collapse(path[i + 1..], path[i] == '/');
    assert out + ([path[i]] + rest) == (out + [path[i]]) + rest;
    assert out + ([] + rest) == out + rest;
  }

  method CollapseSlashes(path: Text) returns (out: Text)
    ensures out == Collapse(path, false)
  {
    if !HasDouble(path) {
      NothingToCollapse(path, false);
      return path;
    }
    out := [];
    var prevSlash := false;
    var i := 0;
    while i < |path|
      invariant 0 <= i <= |path|
      invariant out + Collapse(path[i..], prevSlash) == Collapse(path, false)
    {
      hide Collapse;
      CollapseStep(out, path, i, prevSlash);
      if path[i] == '/' {
        if !prevSlash {
          out := out + [path[i]];
        }
        prevSlash := true;
      } else {
        out := out + [path[i]];
        prevSlash := false;
      }
      i := i + 1;
    }
  }

  function RStrip(s: Text): Text {
    if s != [] && s[|s| - 1] == '/' then RStrip(s[..|s| - 1]) else s
  }

  /** The root stays; any longer path loses its trailing slashes. */
  function StripTrailingSlash(path: Text): Text {
    if |path| > 1 && path[|path| - 1] == '/' then RStrip(path) else path
  }

  // ---------- Collapsing and stripping leave the components ----------

  lemma {:induction false} SpanOf(w: Text, rest: Text)
    requires SlashFree(w) && (rest != [] ==> rest[0] == '/')
    ensures Span(w + rest) == w
    decreases |w|
  {
    if w == [] {
      assert w + rest == rest;
    } else {
      assert (w + rest)[1..] == w[1..] + rest && w[0] in w;
      SpanOf(w[1..], rest);
    }
  }

  lemma WordFirst(w: Text, rest: Text)
    requires w != [] && SlashFree(w) && (rest != [] ==> rest[0] == '/')
    ensures Components(w + rest) == [w] + Components(rest)
  {
    SpanOf(w, rest);
    hide Span;
    assert w[0] in w && (w + rest)[|w|..] == rest;
  }

  lemma SlashFirst(rest: Text)
    requires rest != [] && rest[0] == '/'
    ensures Components(rest) == Components(rest[1..])
  {
  }

  /** The part of a collapsed path after a slash. */
  function Body(s: Text): Text {
    Join(Components(s)) + if Components(s) != [] && s[|s| - 1] == '/' then ['/'] else []
  }

  lemma {:induction false} CollapseWord(w: Text, rest: Text, prevSlash: bool)
    requires SlashFree(w) && w != []
    ensures Collapse(w + rest, prevSlash) == w + Collapse(rest, false)
    decreases |w|
  {
    assert (w + rest)[1..] == w[1..] + rest;
    assert w[0] in w;
    if |w| > 1 {
      CollapseWord(w[1..], rest, false);
    } else {
      assert w[1..] + rest == rest;
    }
  }

  lemma {:induction false} AllSlashes(s: Text)
    requires s != [] && Components(s) == []
    ensures s[0] == '/' && s[|s| - 1] == '/'
    decreases |s|
  {
    if |s| > 1 && s[0] == '/' {
      AllSlashes(s[1..]);
    }
  }

  lemma SlashSkipped(s: Text)
    requires s != [] && s[0] == '/'
    ensures Collapse(s, true) == Collapse(s[1..], true) && Body(s) == Body(s[1..])
  {
    assert [] + Collapse(s[1..], true) == Collapse(s[1..], true);
  }

  lemma WordKept(s: Text)
    requires s != [] && s[0] != '/'
    ensures var w, rest := Span(s), s[|Span(s)|..];
            && |rest| < |s| && (rest != [] ==> rest[0] == '/')
            && Collapse(s, true) == w + (if rest == [] then [] else ['/'] + Collapse(rest[1..], true))
            && Body(s) == w + (if rest == [] then [] else ['/'] + Body(rest[1..]))
  {
    var w, rest := Span(s), s[|Span(s)|..];
    hide Body, Collapse, Components;
    assert s == w + rest;
    CollapseWord(w, rest, true);
    BodyOfWord(w, rest);
    CollapseRest(rest);
  }

  lemma {:induction false} CollapseIsBody(s: Text)
    ensures Collapse(s, true) == Body(s)
    decreases |s|
  {
    if s != [] {
      hide *;
      if s[0] == '/' {
        SlashSkipped(s);
        CollapseIsBody(s[1..]);
      } else {
        WordKept(s);
        var rest := s[|Span(s)|..];
        if rest != [] {
          CollapseIsBody(rest[1..]);
        }
      }
    }
  }

  lemma CollapseRest(rest: Text)
    requires rest != [] ==> rest[0] == '/'
    ensures Collapse(rest, false) == if rest == [] then [] else ['/'] + Collapse(rest[1..], true)
  {
  }

  lemma Ends(init: Text, e: Text)
    requires e != []
    ensures var s := init + e; s[|s| - 1] == e[|e| - 1] && (|e| == 1 ==> s[..|s| - 1] == init)
  {
  }

  lemma BodyOfWord(w: Text, rest: Text)
    requires w != [] && SlashFree(w) && (rest != [] ==> rest[0] == '/')
    ensures Body(w + rest) == w + if rest == [] then [] else ['/'] + Body(rest[1..])
  {
    WordFirst(w, rest);
    if rest == [] {
      assert w[|w| - 1] in w && w + [] == w;
    } else {
      SlashFirst(rest);
      var cs := Components(rest);
      Ends(w, rest);
      if cs == [] {
        AllSlashes(rest);
      } else {
        BodyLonger(w, rest);
      }
    }
  }

  lemma BodyLonger(w: Text, rest: Text)
    requires rest != [] && rest[0] == '/'
    requires Components(w + rest) == [w] + Components(rest) && Components(rest[1..]) == Components(rest) != []
    ensures Body(w + rest) == w + (['/'] + Body(rest[1..]))
  {
    var cs := Components(rest);
    Ends(w, rest);
    hide Components;
    assert Join([w] + cs) == w + ['/'] + Join(cs) by {
      assert ([w] + cs)[1..] == cs;
    }
    var tail := if rest[|rest| - 1] == '/' then ['/'] else [];
    assert |rest| > 1;
    assert Body(rest[1..]) == Join(cs) + tail;
    assert Body(w + rest) == Join([w] + cs) + tail;
    hide Join, Body;
    Percent.Regroup(w, ['/'], Join(cs) + tail);
    Percent.Regroup(w + ['/'], Join(cs), tail);
  }

  lemma {:induction false} JoinEndsInWord(cs: seq<Text>)
    requires cs != [] && forall k :: 0 <= k < |cs| ==> cs[k] != [] && SlashFree(cs[k])
    ensures Join(cs) != [] && Join(cs)[|Join(cs)| - 1] != '/' && Join(cs)[0] != '/'
    decreases |cs|
  {
    assert cs[0][0] in cs[0];
    if |cs| > 1 {
      JoinEndsInWord(cs[1..]);
    } else {
      assert cs[0][|cs[0]| - 1] in cs[0];
    }
  }

  lemma CollapseSplits(d: Text)
    requires d != []
    ensures Collapse(d, false) == (if d[0] == '/' then ['/'] else []) + Body(d)
  {
    if d[0] == '/' {
      CollapseIsBody(d[1..]);
      assert Components(d) == Components(d[1..]);
    } else {
      CollapseIsBody(d);
    }
  }

  lemma StripAfter(plain: Text)
    requires plain != [] && plain[|plain| - 1] != '/'
    ensures StripTrailingSlash(plain) == plain && StripTrailingSlash(plain + ['/']) == plain
  {
    var longer := plain + ['/'];
    assert longer[..|longer| - 1] == plain;
    assert RStrip(plain) == plain;
  }

  lemma CollapseForm(d: Text)
    requires d != []
    ensures Components(d) != [] ==>
              Collapse(d, false) == Build(d[0] == '/', Components(d)) + if d[|d| - 1] == '/' then ['/'] else []
  {
    CollapseSplits(d);
    hide Components, Collapse, Join;
  }

  /** Collapsing, then stripping, leaves just the components. */
  lemma StripCollapse(d: Text)
    requires d != []
    ensures StripTrailingSlash(Collapse(d, false)) == Build(d[0] == '/', Components(d))
  {
    if Components(d) == [] {
      CollapseSplits(d);
      AllSlashes(d);
    } else {
      CollapseForm(d);
      JoinEndsInWord(Components(d));
      hide Join, Components, Collapse, StripTrailingSlash;
      var plain := Build(d[0] == '/', Components(d));
      StripAfter(plain);
      assert plain + [] == plain;
    }
  }

  lemma {:induction false} CollapseQuoted(d: Text, prevSlash: bool)
    ensures Collapse(Quote(d, PathSafe()), prevSlash) == Quote(Collapse(d, prevSlash), PathSafe())
    decreases |d|
  {
    if d != [] {
      var head, rest := QuoteByte(d[0], PathSafe()), Quote(d[1..], PathSafe());
      if d[0] == '/' {
        CollapseQuoted(d[1..], true);
        assert (head + rest)[1..] == rest;
        QuoteConcat(if prevSlash then [] else ['/'], Collapse(d[1..], true), PathSafe());
        assert Quote(['/'], PathSafe()) == ['/'];
      } else {
        CollapseQuoted(d[1..], false);
        WordByte(d[0]);
        CollapseWord(head, rest, prevSlash);
        QuoteConcat([d[0]], Collapse(d[1..], false), PathSafe());
        assert Quote([d[0]], PathSafe()) == head;
      }
    }
  }

  lemma WordByte(c: Byte)
    requires c != '/'
    ensures QuoteByte(c, PathSafe()) != [] && SlashFree(QuoteByte(c, PathSafe()))
  {
    HexSafe(c as nat / 16);
    HexSafe(c as nat % 16);
  }

  lemma WordOrSlash(c: Byte)
    ensures Quote([c], PathSafe()) == QuoteByte(c, PathSafe())
  {
  }

  lemma QuoteSnoc(d: Text, c: Byte)
    ensures Quote(d + [c], PathSafe()) == Quote(d, PathSafe()) + QuoteByte(c, PathSafe())
  {
    WordOrSlash(c);
    QuoteConcat(d, [c], PathSafe());
  }

  lemma WordByteEnd(c: Byte)
    ensures var e := QuoteByte(c, PathSafe()); e != [] && (e[|e| - 1] == '/' <==> c == '/') && (c == '/' ==> |e| == 1)
  {
    if c != '/' {
      WordByte(c);
      var e := QuoteByte(c, PathSafe());
      assert e[|e| - 1] in e;
    }
  }

  lemma QuoteEnd(d: Text)
    requires d != []
    ensures var q := Quote(d, PathSafe());
            && q != [] && (q[|q| - 1] == '/' <==> d[|d| - 1] == '/')
            && (d[|d| - 1] == '/' ==> q[..|q| - 1] == Quote(d[..|d| - 1], PathSafe()))
  {
    var init, c := d[..|d| - 1], d[|d| - 1];
    assert d == init + [c];
    QuoteSnoc(init, c);
    WordByteEnd(c);
    Ends(Quote(init, PathSafe()), QuoteByte(c, PathSafe()));
    hide Quote, QuoteByte;
  }

  lemma {:induction false} RStripQuoted(d: Text)
    ensures RStrip(Quote(d, PathSafe())) == Quote(RStrip(d), PathSafe())
    decreases |d|
  {
    hide QuoteByte, PathSafe;
    if d != [] {
      QuoteEnd(d);
      hide Quote;
      if d[|d| - 1] == '/' {
        RStripQuoted(d[..|d| - 1]);
      }
    }
  }

  lemma QuoteLonger(d: Text)
    requires |d| > 1
    ensures |Quote(d, PathSafe())| > 1
  {
    QuoteEmpty(d[1..], PathSafe());
    hide Quote;
    QuoteFirst(d);
  }

  lemma QuoteFirst(d: Text)
    requires d != []
    ensures |Quote(d, PathSafe())| >= 1 + |Quote(d[1..], PathSafe())|
  {
  }

  lemma StripQuoted(d: Text)
    ensures StripTrailingSlash(Quote(d, PathSafe())) == Quote(StripTrailingSlash(d), PathSafe())
  {
    if d != [] {
      QuoteEnd(d);
      RStripQuoted(d);
      if |d| == 1 {
        WordOrSlash(d[0]);
      } else {
        QuoteLonger(d);
      }
    }
  }

  lemma UnquoteEmpty(s: Text)
    ensures Unquote(s) == [] <==> s == []
  {
  }

  /** `_normalize_path`: decode, encode, collapse, strip. */
  method NormalizePath(path: Text) returns (out: Text)
    ensures out == Normal(path)
  {
    if path == [] {
      assert Components(Unquote(path)) == [] && Build(true, []) == ['/'];
      return ROOT;
    }
    var decoded := Unquote(path);
    UnquoteEmpty(path);
    var reencoded := Quote(decoded, PathSafe());
    out := CollapseSlashes(reencoded);
    out := StripTrailingSlash(out);
    CollapseQuoted(decoded, false);
    StripQuoted(Collapse(decoded, false));
    StripCollapse(decoded);
    BuildNonEmpty(decoded);
    QuoteEmpty(Build(decoded[0] == '/', Components(decoded)), PathSafe());
    if out == [] {
      out := ROOT;
    }
  }

  lemma BuildNonEmpty(d: Text)
    requires d != []
    ensures Build(d[0] == '/', Components(d)) != []
  {
    if Components(d) == [] {
      AllSlashes(d);
    } else {
      JoinEndsInWord(Components(d));
    }
  }

  // ---------- What the normal form says ----------

  ghost predicate Words(cs: seq<Text>) {
    forall k :: 0 <= k < |cs| ==> cs[k] != [] && SlashFree(cs[k])
  }

  lemma {:induction false} ComponentsOfJoin(cs: seq<Text>)
    requires Words(cs)
    ensures Components(Join(cs)) == cs
    decreases |cs|
  {
    if |cs| == 1 {
      WordFirst(cs[0], []);
      assert cs[0] + [] == cs[0];
    } else if |cs| > 1 {
      ComponentsOfJoin(cs[1..]);
      var rest := ['/'] + Join(cs[1..]);
      assert rest[1..] == Join(cs[1..]) && Join(cs) == cs[0] + rest;
      hide Join, Components;
      WordFirst(cs[0], rest);
      SlashFirst(rest);
    }
  }

  lemma ComponentsOfBuild(rooted: bool, cs: seq<Text>)
    requires Words(cs) && (cs == [] ==> rooted)
    ensures Build(rooted, cs) != [] && Components(Build(rooted, cs)) == cs
              && (Build(rooted, cs)[..1] == "/" <==> rooted)
  {
    ComponentsOfJoin(cs);
    if cs != [] {
      JoinEndsInWord(cs);
    }
    if rooted {
      assert Build(rooted, cs)[1..] == Join(cs);
    } else {
      assert Build(rooted, cs) == Join(cs);
    }
  }

  lemma NormalParts(path: Text)
    ensures var cs := Components(Unquote(path));
            Words(cs) && (cs == [] ==> Rooted(path)) && Unquote(Normal(path)) == Build(Rooted(path), cs)
  {
    var d := Unquote(path);
    UnquoteEmpty(path);
    if path != [] && Components(d) == [] {
      AllSlashes(d);
    }
    UnquoteQuote(Build(Rooted(path), Components(d)), PathSafe());
  }

  /** Normalising reaches its fixed point at once. */
  lemma NormalIdempotent(path: Text)
    ensures Normal(Normal(path)) == Normal(path)
  {
    NormalParts(path);
    ComponentsOfBuild(Rooted(path), Components(Unquote(path)));
  }

  /** Two paths have the same normal form exactly when they decode to the same components, both
      from the root or both not: doubled and trailing slashes and the choice of escapes do not
      count, and nothing else is lost. */
  lemma SamePathIff(p: Text, q: Text)
    ensures Normal(p) == Normal(q) <==> Components(Unquote(p)) == Components(Unquote(q)) && Rooted(p) == Rooted(q)
  {
    NormalParts(p);
    NormalParts(q);
    ComponentsOfBuild(Rooted(p), Components(Unquote(p)));
    ComponentsOfBuild(Rooted(q), Components(Unquote(q)));
  }
}
