/** Percent-encoding at byte level: a text is a string of characters below 256, one per byte. */
module Percent {

  type Byte = c: char | c as int < 256 witness 'a'

  type Text = seq<Byte>

  /** What `quote` never encodes, whatever it is told is safe. */
  predicate AlwaysSafe(c: Byte) {
    'A' <= c <= 'Z' || 'a' <= c <= 'z' || '0' <= c <= '9' || c == '_' || c == '.' || c == '-' || c == '~'
  }

  function HexDigit(d: nat): Byte
    requires d < 16
  {
    if d < 10 then '0' + (d as char) else 'A' + ((d - 10) as char)
  }

  /** The value of a hex digit of either case, 16 for anything else. */
  function HexValue(c: Byte): (d: nat)
    ensures d <= 16
  {
    if '0' <= c <= '9' then (c - '0') as nat
    else if 'A' <= c <= 'F' then (c - 'A') as nat + 10
    else if 'a' <= c <= 'f' then (c - 'a') as nat + 10
    else 16
  }

  function QuoteByte(c: Byte, safe: Byte -> bool): Text {
    if AlwaysSafe(c) || safe(c) then [c] else ['%', HexDigit(c as nat / 16), HexDigit(c as nat % 16)]
  }

  function Quote(s: Text, safe: Byte -> bool): Text {
    if s == [] then [] else QuoteByte(s[0], safe) + Quote(s[1..], safe)
  }

  predicate Escape(s: Text) {
    |s| >= 3 && s[0] == '%' && HexValue(s[1]) < 16 && HexValue(s[2]) < 16
  }

  function EscapeValue(s: Text): Byte
    requires Escape(s)
  {
    (16 * HexValue(s[1]) + HexValue(s[2])) as char
  }

  /** A `%` that starts no escape stands for itself. */
  function Unquote(s: Text): Text {
    if s == [] then []
    else if Escape(s) then [EscapeValue(s)] + Unquote(s[3..])
    else [s[0]] + Unquote(s[1..])
  }

  const UPPER := "ABCDEFGHIJKLMNOPQRSTUVWXYZ"

  const LOWER := "abcdefghijklmnopqrstuvwxyz"

  const DIGITS := "0123456789"

  /** The unreserved characters of RFC 3986, section 2.3. */
  predicate Unreserved(c: Byte) {
    c in UPPER || c in LOWER || c in DIGITS || c in "-._~"
  }

  lemma UpperLetters(c: Byte)
    ensures 'A' <= c <= 'Z' <==> c in UPPER
  {
    if 'A' <= c <= 'Z' {
      assert UPPER[(c - 'A') as int] == c;
    }
  }

  lemma LowerLetters(c: Byte)
    ensures 'a' <= c <= 'z' <==> c in LOWER
  {
    if 'a' <= c <= 'z' {
      assert LOWER[(c - 'a') as int] == c;
    }
  }

  lemma DigitsAre(c: Byte)
    ensures '0' <= c <= '9' <==> c in DIGITS
  {
    if '0' <= c <= '9' {
      assert DIGITS[(c - '0') as int] == c;
    }
  }

  /** With nothing else declared safe, exactly the unreserved characters stay as they are. */
  lemma AlwaysSafeIs(c: Byte)
    ensures AlwaysSafe(c) <==> Unreserved(c)
  {
    hide UPPER, LOWER, DIGITS;
    UpperLetters(c);
    LowerLetters(c);
    DigitsAre(c);
  }

  /** Hex digits are written in upper case and read in either. */
  lemma HexDigitIs(d: nat, c: Byte)
    requires d < 16
    ensures HexDigit(d) == "0123456789ABCDEF"[d]
    ensures HexValue(c) == d <==> c == "0123456789ABCDEF"[d] || c == "0123456789abcdef"[d]
  {
  }

  lemma HexRoundTrip(c: Byte)
    ensures var e: Text := ['%', HexDigit(c as nat / 16), HexDigit(c as nat % 16)];
            Escape(e) && EscapeValue(e) == c
  {
    HexDigitValue(c as nat / 16);
    HexDigitValue(c as nat % 16);
  }

  lemma HexDigitValue(d: nat)
    requires d < 16
    ensures HexValue(HexDigit(d)) == d
  {
  }

  lemma UnquoteByte(c: Byte, safe: Byte -> bool, rest: Text)
    requires !safe('%')
    ensures Unquote(QuoteByte(c, safe) + rest) == [c] + Unquote(rest)
  {
    var s := QuoteByte(c, safe) + rest;
    if AlwaysSafe(c) || safe(c) {
      assert s[1..] == rest;
    } else {
      HexRoundTrip(c);
      assert s[3..] == rest;
      assert s[..3] == QuoteByte(c, safe);
    }
  }

  /** Whatever is declared safe, short of `%` itself, decoding undoes encoding. */
  lemma {:induction false} UnquoteQuote(s: Text, safe: Byte -> bool)
    requires !safe('%')
    ensures Unquote(Quote(s, safe)) == s
    decreases |s|
  {
    if s != [] {
      UnquoteQuote(s[1..], safe);
      UnquoteByte(s[0], safe, Quote(s[1..], safe));
    }
  }

  lemma QuoteStep(s: Text, safe: Byte -> bool)
    requires s != []
    ensures Quote(s, safe) == QuoteByte(s[0], safe) + Quote(s[1..], safe)
  {
  }

  lemma TailOfConcat(a: Text, b: Text)
    requires a != []
    ensures (a + b)[0] == a[0] && (a + b)[1..] == a[1..] + b
  {
  }

  lemma Regroup(a: Text, b: Text, c: Text)
    ensures a + (b + c) == (a + b) + c
  {
  }

  lemma {:induction false} QuoteConcat(a: Text, b: Text, safe: Byte -> bool)
    ensures Quote(a + b, safe) == Quote(a, safe) + Quote(b, safe)
    decreases |a|
  {
    if a == [] {
      assert a + b == b;
    } else {
      hide QuoteByte, Quote;
      QuoteConcat(a[1..], b, safe);
      TailOfConcat(a, b);
      QuoteStep(a, safe);
      QuoteStep(a + b, safe);
      Regroup(QuoteByte(a[0], safe), Quote(a[1..], safe), Quote(b, safe));
    }
  }

  /** A byte that is neither safe, nor `%`, nor a hex digit never shows in encoded text. */
  lemma {:induction false} QuoteHides(s: Text, safe: Byte -> bool, c: Byte)
    requires !AlwaysSafe(c) && !safe(c) && c != '%'
    ensures c !in Quote(s, safe)
    decreases |s|
  {
    if s != [] {
      QuoteHides(s[1..], safe, c);
      HexSafe(s[0] as nat / 16);
      HexSafe(s[0] as nat % 16);
    }
  }

  lemma HexSafe(d: nat)
    requires d < 16
    ensures AlwaysSafe(HexDigit(d))
  {
  }

  lemma QuoteEmpty(s: Text, safe: Byte -> bool)
    ensures Quote(s, safe) == [] <==> s == []
  {
  }
}
