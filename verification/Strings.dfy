/** Strings as Python cuts them: lines, surrounding space, trailing slashes, separators. */
module Strings {

  predicate InRange(c: char, lo: nat, hi: nat) {
    lo <= c as int <= hi
  }

  /** Where `splitlines` breaks. */
  predicate IsBreak(c: char) {
    InRange(c, 0x0A, 0x0D) || InRange(c, 0x1C, 0x1E) || c as int == 0x85 || InRange(c, 0x2028, 0x2029)
  }

  /** What `strip` removes. */
  predicate IsSpace(c: char) {
    || InRange(c, 0x09, 0x0D) || InRange(c, 0x1C, 0x20) || c as int == 0x85 || c as int == 0xA0
    || c as int == 0x1680 || InRange(c, 0x2000, 0x200A) || InRange(c, 0x2028, 0x2029)
    || c as int == 0x202F || c as int == 0x205F || c as int == 0x3000
  }

  predicate OneLine(s: string) {
    forall i :: 0 <= i < |s| ==> !IsBreak(s[i])
  }

  function FirstLine(s: string): (w: string)
    ensures w <= s && OneLine(w) && (|w| < |s| ==> IsBreak(s[|w|]))
  {
    if s == "" || IsBreak(s[0]) then "" else [s[0]] + FirstLine(s[1..])
  }

  /** A carriage return and the newline after it are one break. */
  function SplitLines(s: string): (lines: seq<string>)
    ensures forall k :: 0 <= k < |lines| ==> OneLine(lines[k])
    decreases |s|
  {
    if s == "" then []
    else
      var w := FirstLine(s);
      if |w| == |s| then [w]
      else if s[|w|] == '\r' && |w| + 1 < |s| && s[|w| + 1] == '\n' then [w] + SplitLines(s[|w| + 2..])
      else [w] + SplitLines(s[|w| + 1..])
  }

  function LStrip(s: string): string {
    if s != "" && IsSpace(s[0]) then LStrip(s[1..]) else s
  }

  function RStrip(s: string): (r: string)
    ensures r <= s && (r != "" ==> !IsSpace(r[|r| - 1]))
  {
    if s != "" && IsSpace(s[|s| - 1]) then RStrip(s[..|s| - 1]) else s
  }

  function Strip(s: string): string {
    RStrip(LStrip(s))
  }

  function RStripSlash(s: string): string {
    if s != "" && s[|s| - 1] == '/' then RStripSlash(s[..|s| - 1]) else s
  }

  /** Not empty, on one line, no space at either end. */
  ghost predicate CleanText(s: string) {
    s != "" && OneLine(s) && !IsSpace(s[0]) && !IsSpace(s[|s| - 1])
  }

  lemma LStripSolid(s: string)
    requires s != "" && !IsSpace(s[0])
    ensures LStrip(s) == s
  {
    hide IsSpace;
  }

  lemma {:induction false} LStripIndent(indent: string, s: string)
    requires (forall i :: 0 <= i < |indent| ==> IsSpace(indent[i])) && s != "" && !IsSpace(s[0])
    ensures LStrip(indent + s) == s
    decreases |indent|
  {
    hide IsSpace;
    if indent == "" {
      assert indent + s == s;
    } else {
      assert (indent + s)[1..] == indent[1..] + s;
      LStripIndent(indent[1..], s);
    }
  }

  lemma StripIndent(indent: string, s: string)
    requires (forall i :: 0 <= i < |indent| ==> IsSpace(indent[i])) && s != "" && !IsSpace(s[0]) && !IsSpace(s[|s| - 1])
    ensures Strip(indent + s) == s && Strip(s) == s
  {
    LStripIndent(indent, s);
    LStripSolid(s);
  }

  lemma StripSelf(s: string)
    requires CleanText(s)
    ensures Strip(s) == s
  {
    StripIndent("", s);
  }

  lemma CleanNotEmpty(s: string)
    requires CleanText(s)
    ensures s != ""
  {
  }

  lemma TailOneLine(s: string, n: nat)
    requires OneLine(s) && n <= |s|
    ensures OneLine(s[n..])
  {
    hide IsBreak;
    assert forall i :: 0 <= i < |s[n..]| ==> s[n..][i] == s[n + i];
  }

  lemma {:induction false} LStripOneLine(s: string)
    requires OneLine(s)
    ensures OneLine(LStrip(s)) && (LStrip(s) != "" ==> !IsSpace(LStrip(s)[0]))
    decreases |s|
  {
    hide IsSpace;
    if s != "" && IsSpace(s[0]) {
      TailOneLine(s, 1);
      hide OneLine;
      LStripOneLine(s[1..]);
    }
  }

  lemma PrefixOneLine(r: string, s: string)
    requires OneLine(s) && r <= s
    ensures OneLine(r)
  {
    hide IsBreak;
  }

  lemma StripOneLine(s: string)
    requires OneLine(s)
    ensures OneLine(Strip(s)) && (Strip(s) != "" ==> CleanText(Strip(s)))
  {
    LStripOneLine(s);
    var l := LStrip(s);
    PrefixOneLine(RStrip(l), l);
    hide LStrip, RStrip, OneLine, IsSpace;
  }

  ghost predicate AllSpace(s: string) {
    forall i :: 0 <= i < |s| ==> IsSpace(s[i])
  }

  lemma {:induction false} LStripIs(s: string) returns (n: nat)
    ensures n <= |s| && LStrip(s) == s[n..] && AllSpace(s[..n]) && (n < |s| ==> !IsSpace(s[n]))
    decreases |s|
  {
    hide IsSpace;
    n := 0;
    if s != "" && IsSpace(s[0]) {
      var k := LStripIs(s[1..]);
      n := k + 1;
      assert s[..n] == [s[0]] + s[1..][..k];
    }
  }

  lemma {:induction false} RStripIs(s: string) returns (n: nat)
    ensures n <= |s| && RStrip(s) == s[..n] && AllSpace(s[n..]) && (n > 0 ==> !IsSpace(s[n - 1]))
    decreases |s|
  {
    hide IsSpace;
    n := |s|;
    if s != "" && IsSpace(s[n - 1]) {
      var t := s[..n - 1];
      n := RStripIs(t);
      assert t[..n] == s[..n] && s[n..] == t[n..] + [s[|s| - 1]];
    }
  }

  /** Stripping cuts off exactly the space at both ends. */
  lemma StripIs(s: string) returns (i: nat, j: nat)
    ensures i <= j <= |s| && Strip(s) == s[i..j] && AllSpace(s[..i]) && AllSpace(s[j..])
    ensures i < j ==> !IsSpace(s[i]) && !IsSpace(s[j - 1])
  {
    i := LStripIs(s);
    var n := RStripIs(s[i..]);
    j := i + n;
    hide LStrip, RStrip, IsSpace, AllSpace;
    assert s[i..][..n] == s[i..j] && s[i..][n..] == s[j..];
  }

  lemma StripTwice(s: string)
    ensures Strip(Strip(s)) == Strip(s)
  {
    var i, j := StripIs(s);
    hide IsSpace, AllSpace;
    if i < j {
      var t := s[i..j];
      assert t[0] == s[i] && t[|t| - 1] == s[j - 1];
      assert "" + t == t;
      StripIndent("", t);
    }
  }

  /** Every line break counts as space. */
  lemma BreakIsSpace(c: char)
    ensures IsBreak(c) ==> IsSpace(c)
  {
  }

  /** Only slashes are cut off, and all of them. */
  lemma {:induction false} RStripSlashIs(s: string) returns (n: nat)
    ensures n <= |s| && RStripSlash(s) == s[..n]
    ensures (forall i :: n <= i < |s| ==> s[i] == '/') && (n > 0 ==> s[n - 1] != '/')
    decreases |s|
  {
    n := |s|;
    if s != "" && s[n - 1] == '/' {
      n := RStripSlashIs(s[..n - 1]);
    }
  }

  // ---------- Separators ----------

  function UpToComma(s: string): (w: string)
    ensures w <= s && ',' !in w && (|w| < |s| ==> s[|w|] == ',')
  {
    if s == "" || s[0] == ',' then "" else [s[0]] + UpToComma(s[1..])
  }

  /** `split(",")`: always at least one part. */
  function SplitCommas(s: string): (parts: seq<string>)
    ensures parts != []
    decreases |s|
  {
    var w := UpToComma(s);
    if |w| == |s| then [w] else [w] + SplitCommas(s[|w| + 1..])
  }

  function JoinCommas(parts: seq<string>): string
    requires parts != []
  {
    if |parts| == 1 then parts[0] else parts[0] + "," + JoinCommas(parts[1..])
  }

  /** The parts hold no comma, and joined by commas give the text back: that leaves no choice of parts. */
  lemma {:induction false} SplitCommasIs(s: string)
    ensures JoinCommas(SplitCommas(s)) == s && forall p :: p in SplitCommas(s) ==> ',' !in p
    decreases |s|
  {
    var w := UpToComma(s);
    if |w| < |s| {
      var rest := s[|w| + 1..];
      SplitCommasIs(rest);
      assert SplitCommas(s)[1..] == SplitCommas(rest);
      assert s == w + "," + rest;
    }
  }
}
