/** Lower-case base 32 without padding (section 6 of RFC 4648), and the content ids built on it. */
module Base32 {

  function Letter(d: nat): char
    requires d < 32
  {
    ALPHABET[d]
  }

  type byte = x: nat | x < 256

  const ALPHABET: string := "abcdefghijklmnopqrstuvwxyz234567"

  function Pow2(n: nat): (p: nat)
    ensures p > 0
  {
    if n == 0 then 1 else 2 * Pow2(n - 1)
  }

  lemma QuotientNotNegative(x: nat, p: nat)
    requires p > 0
    ensures x / p >= 0
  {
  }

  /** `x >> k` and `x << k` on unbounded integers. */
  function Shr(x: nat, k: nat): nat {
    QuotientNotNegative(x, Pow2(k));
    x / Pow2(k)
  }

  function Shl(x: nat, k: nat): nat {
    x * Pow2(k)
  }

  /** `x & 0x1F` */
  function Low5(x: nat): (d: nat)
    ensures d < 32
  {
    x % 32
  }

  /** Big-endian value of a digit string. */
  function Value(digits: seq<nat>, base: nat): nat {
    if digits == [] then 0
    else Value(digits[..|digits| - 1], base) * base + digits[|digits| - 1]
  }

  function DigitOf(c: char): nat {
    if 'a' <= c <= 'z' then (c - 'a') as nat
    else if '2' <= c <= '7' then (c - '2') as nat + 26
    else 0
  }

  function DigitsOf(s: string): (d: seq<nat>)
    ensures |d| == |s| && forall k :: 0 <= k < |s| ==> d[k] == DigitOf(s[k])
  {
    if s == [] then [] else DigitsOf(s[..|s| - 1]) + [DigitOf(s[|s| - 1])]
  }

  /** Digits for `n` bytes: one for every five bits, rounded up. */
  function DigitsNeeded(n: nat): nat {
    (8 * n + 4) / 5
  }

  /** How many zero bits fill up the last digit. */
  function Pad(n: nat): nat {
    5 * DigitsNeeded(n) - 8 * n
  }

  ghost predicate Lettered(text: string) {
    forall c :: c in text ==> c in ALPHABET
  }

  /** `text` is the base-32 form of `data`: as many digits as its bits need, all from the alphabet,
      with its value once shifted left to a whole number of digits. */
  ghost predicate Encodes(data: seq<byte>, text: string) {
    && |text| == DigitsNeeded(|data|)
    && Lettered(text)
    && Value(DigitsOf(text), 32) == Shl(Value(data, 256), Pad(|data|))
  }

  // ---------- Arithmetic of shifts ----------

  lemma {:induction false} Pow2Sum(a: nat, b: nat)
    ensures Pow2(a + b) == Pow2(a) * Pow2(b)
    decreases b
  {
    if b > 0 {
      Pow2Sum(a, b - 1);
      assert Pow2(a + b) == 2 * Pow2(a + (b - 1));
    }
  }

  lemma MulGrows(d: int, m: int)
    requires m > 0
    ensures d >= 1 ==> d * m >= m
    ensures d <= -1 ==> d * m <= -m
  {
    if d >= 1 {
      assert (d - 1) * m >= 0;
    } else if d <= -1 {
      assert (-1 - d) * m >= 0;
    }
  }

  lemma QuotientIs(a: int, m: int, q: int, r: int)
    requires m > 0 && 0 <= r < m && a == q * m + r
    ensures a / m == q && a % m == r
  {
    assert (a / m - q) * m == r - a % m;
    MulGrows(a / m - q, m);
  }

  lemma ShiftInByte(buf: nat, b: nat, p: nat)
    requires p > 0 && b < 256
    ensures (buf * 256 + b) / (p * 256) == buf / p
  {
    var q, r := buf / p, buf % p;
    assert buf * 256 + b == q * (p * 256) + (r * 256 + b);
    QuotientIs(buf * 256 + b, p * 256, q, r * 256 + b);
  }

  lemma ShiftOutDigit(buf: nat, p: nat)
    requires p > 0
    ensures (buf / p) / 32 == buf / (p * 32)
  {
    var q, r := buf / p, buf % p;
    var high, low := q / 32, q % 32;
    Regroup(high, low, p, r);
    QuotientIs(buf, p * 32, high, low * p + r);
  }

  lemma Regroup(high: nat, low: nat, p: nat, r: nat)
    requires low < 32 && r < p
    ensures (high * 32 + low) * p + r == high * (p * 32) + (low * p + r)
    ensures 0 <= low * p + r < p * 32
  {
    assert (31 - low) * p >= 0;
  }

  lemma LastDigit(buf: nat, bits: nat)
    requires 0 < bits < 5
    ensures Shl(buf, 5 - bits) == Shr(buf, bits) * 32 + Low5(Shl(buf, 5 - bits))
  {
    Pow2Sum(bits, 5 - bits);
    assert Pow2(5) == 32;
    var p, s := Pow2(bits), Pow2(5 - bits);
    var q, r := buf / p, buf % p;
    assert buf * s == q * (p * s) + r * s;
    assert r * s < p * s;
    QuotientIs(buf * s, 32, q, r * s);
  }

  lemma ValueSnoc(digits: seq<nat>, d: nat, base: nat)
    ensures Value(digits + [d], base) == Value(digits, base) * base + d
  {
    assert (digits + [d])[..|digits|] == digits;
  }

  lemma DigitsSnoc(s: string, c: char)
    ensures DigitsOf(s + [c]) == DigitsOf(s) + [DigitOf(c)]
  {
  }

  lemma AlphabetDigit(d: nat)
    requires d < 32
    ensures DigitOf(Letter(d)) == d && Letter(d) in ALPHABET
  {
    assert ALPHABET[d] == if d < 26 then 'a' + (d as char) else '2' + ((d - 26) as char);
  }

  lemma LetterDigit(c: char)
    requires c in ALPHABET
    ensures DigitOf(c) < 32 && Letter(DigitOf(c)) == c
  {
    var k :| 0 <= k < |ALPHABET| && ALPHABET[k] == c;
    AlphabetDigit(k);
  }

  /** `read` is in the buffer, of which all but the last `bits` bits have become digits. */
  ghost predicate Progress(read: seq<byte>, text: string, buf: nat, bits: nat) {
    && 5 * |text| + bits == 8 * |read|
    && buf == Value(read, 256)
    && Value(DigitsOf(text), 32) == Shr(buf, bits)
    && Lettered(text)
  }

  lemma ReadByte(read: seq<byte>, text: string, buf: nat, bits: nat, b: byte)
    requires Progress(read, text, buf, bits)
    ensures Progress(read + [b], text, buf * 256 + b, bits + 8)
  {
    ShiftInByte(buf, b, Pow2(bits));
    Pow2Sum(bits, 8);
    assert Pow2(8) == 256;
    ValueSnoc(read, b, 256);
    hide Value, Pow2;
  }

  lemma WriteDigit(read: seq<byte>, text: string, buf: nat, bits: nat)
    requires Progress(read, text, buf, bits) && bits >= 5
    ensures Progress(read, text + [Letter(Low5(Shr(buf, bits - 5)))], buf, bits - 5)
  {
    NextDigit(buf, bits);
    hide Value, Shr, DigitsOf, Low5, Lettered;
    Snoc(text, Low5(Shr(buf, bits - 5)));
  }

  lemma NextDigit(buf: nat, bits: nat)
    requires bits >= 5
    ensures Shr(buf, bits - 5) == Shr(buf, bits) * 32 + Low5(Shr(buf, bits - 5))
  {
    Pow2Sum(bits - 5, 5);
    assert Pow2(5) == 32;
    ShiftOutDigit(buf, Pow2(bits - 5));
  }

  lemma Snoc(text: string, d: nat)
    requires d < 32
    ensures Value(DigitsOf(text + [Letter(d)]), 32) == Value(DigitsOf(text), 32) * 32 + d
    ensures Lettered(text) ==> Lettered(text + [Letter(d)])
  {
    AlphabetDigit(d);
    DigitsSnoc(text, Letter(d));
    ValueSnoc(DigitsOf(text), d, 32);
  }

  lemma DigitCount(n: nat, written: nat, bits: nat)
    requires 5 * written + bits == 8 * n && bits < 5
    ensures DigitsNeeded(n) == if bits > 0 then written + 1 else written
    ensures Pad(n) == if bits > 0 then 5 - bits else 0
  {
  }

  lemma IsEncoding(data: seq<byte>, text: string)
    requires |text| == DigitsNeeded(|data|) && Lettered(text)
    requires Value(DigitsOf(text), 32) == Shl(Value(data, 256), Pad(|data|))
    ensures Encodes(data, text)
  {
  }

  lemma Read(read: seq<byte>, text: string, buf: nat, bits: nat)
    requires Progress(read, text, buf, bits)
    ensures 5 * |text| + bits == 8 * |read| && Lettered(text)
    ensures Value(read, 256) == buf && Value(DigitsOf(text), 32) == Shr(buf, bits)
  {
  }

  lemma WriteLast(read: seq<byte>, text: string, buf: nat, bits: nat)
    requires Progress(read, text, buf, bits) && 0 < bits < 5
    ensures Encodes(read, text + [Letter(Low5(Shl(buf, 5 - bits)))])
  {
    hide *;
    Read(read, text, buf, bits);
    DigitCount(|read|, |text|, bits);
    LastDigit(buf, bits);
    Snoc(text, Low5(Shl(buf, 5 - bits)));
    IsEncoding(read, text + [Letter(Low5(Shl(buf, 5 - bits)))]);
  }

  lemma NothingLeft(read: seq<byte>, text: string, buf: nat)
    requires Progress(read, text, buf, 0)
    ensures Encodes(read, text)
  {
    assert Pow2(0) == 1;
    DigitCount(|read|, |text|, 0);
  }

  /** The shifting bit-buffer encoder; bits already written are never masked out of the buffer. */
  method B32Lower(data: seq<byte>) returns (text: string)
    ensures Encodes(data, text)
  {
    hide *;
    text := "";
    var buf: nat, bits: nat, i: nat := 0, 0, 0;
    NothingRead();
    while i < |data|
      invariant 0 <= i <= |data| && bits < 5
      invariant Progress(data[..i], text, buf, bits)
    {
      ReadByte(data[..i], text, buf, bits, data[i]);
      assert data[..i + 1] == data[..i] + [data[i]];
      buf := buf * 256 + data[i];
      bits := bits + 8;
      while bits >= 5
        invariant Progress(data[..i + 1], text, buf, bits)
      {
        WriteDigit(data[..i + 1], text, buf, bits);
        bits := bits - 5;
        text := text + [Letter(Low5(Shr(buf, bits)))];
      }
      i := i + 1;
    }
    assert data[..i] == data;
    if bits > 0 {
      WriteLast(data, text, buf, bits);
      text := text + [Letter(Low5(Shl(buf, 5 - bits)))];
    } else {
      NothingLeft(data, text, buf);
    }
  }

  lemma NothingRead()
    ensures Progress([], "", 0, 0) 
  {
  }

  // ---------- What the encoding determines ----------

  ghost predicate Below(digits: seq<nat>, base: nat) {
    forall k :: 0 <= k < |digits| ==> digits[k] < base
  }

  lemma {:induction false} ValueInjective(a: seq<nat>, b: seq<nat>, base: nat)
    requires |a| == |b| && Value(a, base) == Value(b, base) && Below(a, base) && Below(b, base)
    ensures a == b
    decreases |a|
  {
    if a != [] {
      var n := |a| - 1;
      var x, y := a[..n], b[..n];
      assert Below(x, base) && Below(y, base) && a[n] < base && b[n] < base;
      assert a == x + [a[n]] && b == y + [b[n]];
      LastDigitsAgree(Value(x, base), a[n], Value(y, base), b[n], base);
      ValueInjective(x, y, base);
    }
  }

  lemma LastDigitsAgree(x: nat, c: nat, y: nat, d: nat, base: nat)
    requires c < base && d < base && x * base + c == y * base + d
    ensures x == y && c == d
  {
    QuotientIs(x * base + c, base, x, c);
    QuotientIs(x * base + c, base, y, d);
  }

  /** The contract of the encoder leaves no choice. */
  lemma EncodingUnique(data: seq<byte>, s: string, t: string)
    requires Encodes(data, s) && Encodes(data, t)
    ensures s == t
  {
    Letters(s);
    Letters(t);
    ValueInjective(DigitsOf(s), DigitsOf(t), 32);
    forall k | 0 <= k < |s| ensures s[k] == t[k] {
      assert s[k] == Letter(DigitsOf(s)[k]) && t[k] == Letter(DigitsOf(t)[k]);
    }
  }

  lemma Letters(s: string)
    requires Lettered(s)
    ensures Below(DigitsOf(s), 32)
    ensures forall k :: 0 <= k < |s| ==> DigitsOf(s)[k] < 32 && s[k] == Letter(DigitsOf(s)[k])
  {
    hide Letter, Lettered, DigitOf;
    forall k | 0 <= k < |s| ensures DigitsOf(s)[k] < 32 && s[k] == Letter(DigitsOf(s)[k]) {
      LetterAt(s, k);
    }
  }

  lemma LetterAt(s: string, k: nat)
    requires Lettered(s) && k < |s|
    ensures DigitsOf(s)[k] < 32 && s[k] == Letter(DigitsOf(s)[k])
  {
    hide DigitsOf, DigitOf, Letter;
    assert s[k] in s;
    LetterDigit(s[k]);
  }

  lemma SameLength(m: nat, n: nat)
    requires DigitsNeeded(m) == DigitsNeeded(n)
    ensures m == n
  {
  }

  /** No two byte strings, of whatever lengths, share an encoding. */
  lemma EncodingInjective(a: seq<byte>, b: seq<byte>, text: string)
    requires Encodes(a, text) && Encodes(b, text)
    ensures a == b
  {
    SameLength(|a|, |b|);
    Cancel(Value(a, 256), Value(b, 256), Pow2(Pad(|a|)));
    ValueInjective(a, b, 256);
  }

  lemma Cancel(x: nat, y: nat, p: nat)
    requires p > 0 && x * p == y * p
    ensures x == y
  {
    MulGrows(x - y, p);
  }

  // ---------- Content ids ----------

  lemma PowStep(width: nat, n: nat)
    ensures Pow2(width * (n + 1)) == Pow2(width * n) * Pow2(width)
  {
    assert width * (n + 1) == width * n + width;
    Pow2Sum(width * n, width);
  }

  lemma Distribute(a: nat, p: nat, x: nat, q: nat)
    ensures (a * p + x) * q == a * (p * q) + x * q
  {
  }

  lemma {:induction false} ValueConcat(a: seq<nat>, b: seq<nat>, base: nat, width: nat)
    requires base == Pow2(width)
    ensures Value(a + b, base) == Value(a, base) * Pow2(width * |b|) + Value(b, base)
    decreases |b|
  {
    if b == [] {
      assert a + b == a;
    } else {
      var n := |b| - 1;
      var x := b[..n];
      assert a + b == (a + x) + [b[n]] && b == x + [b[n]];
      ValueConcat(a, x, base, width);
      ValueSnoc(a + x, b[n], base);
      ValueSnoc(x, b[n], base);
      PowStep(width, n);
      Distribute(Value(a, base), Pow2(width * n), Value(x, base), base);
    }
  }

  lemma {:induction false} ValueBound(digits: seq<nat>, base: nat, width: nat)
    requires base == Pow2(width) && Below(digits, base)
    ensures Value(digits, base) < Pow2(width * |digits|)
    decreases |digits|
  {
    if digits != [] {
      var n := |digits| - 1;
      var x := digits[..n];
      ValueBound(x, base, width);
      PowStep(width, n);
      OneMoreDigit(Value(x, base), digits[n], base, Pow2(width * n));
    }
  }

  lemma OneMoreDigit(x: nat, d: nat, base: nat, p: nat)
    requires x < p && d < base
    ensures x * base + d < p * base
  {
    MulGrows(p - x, base);
    assert (p - x) * base == p * base - x * base;
  }

  /** CIDv1, raw codec, sha2-256, 32 bytes of digest. */
  const CID_PREFIX: seq<byte> := [0x01, 0x55, 0x12, 0x20]

  const CID_LETTERS: string := "afkrei"

  lemma PrefixValue()
    ensures Value(CID_PREFIX, 256) == 0x01551220
  {
    ValueSnoc([], 0x01, 256);
    ValueSnoc([0x01], 0x55, 256);
    ValueSnoc([0x01, 0x55], 0x12, 256);
    ValueSnoc([0x01, 0x55, 0x12], 0x20, 256);
    hide Value;
    assert [] + [0x01] == [0x01] && [0x01] + [0x55] == [0x01, 0x55] && [0x01, 0x55] + [0x12] == [0x01, 0x55, 0x12];
    assert [0x01, 0x55, 0x12] + [0x20] == CID_PREFIX;
  }

  lemma LettersValue()
    ensures Value([0, 5, 10, 17, 4, 8], 32) * 4 == 0x01551220
  {
    ValueSnoc([], 0, 32);
    ValueSnoc([0], 5, 32);
    ValueSnoc([0, 5], 10, 32);
    ValueSnoc([0, 5, 10], 17, 32);
    ValueSnoc([0, 5, 10, 17], 4, 32);
    ValueSnoc([0, 5, 10, 17, 4], 8, 32);
    hide Value;
    assert [] + [0] == [0] && [0] + [5] == [0, 5] && [0, 5] + [10] == [0, 5, 10] && [0, 5, 10] + [17] == [0, 5, 10, 17];
    assert [0, 5, 10, 17] + [4] == [0, 5, 10, 17, 4] && [0, 5, 10, 17, 4] + [8] == [0, 5, 10, 17, 4, 8];
  }

  /** With two pad bits the leading 32 bits of the prefix make up the first six digits and two zero bits. */
  lemma LeadingDigits(high: nat, low: nat, top: nat, rest: nat, big: nat, small: nat)
    requires big == small * 16 && rest < big && low < small
    requires high * big + rest == Shl(top * 4 * small + low, 2)
    ensures high == top
  {
    assert Pow2(2) == 4 && Shl(top * 4 * small + low, 2) == top * (small * 16) + low * 4;
    QuotientIs(high * big + rest, big, high, rest);
    QuotientIs(high * big + rest, big, top, low * 4);
  }

  /** Every content id starts with the same letters, whatever the digest. */
  lemma CidLetters(digest: seq<byte>, text: string)
    requires |digest| == 32 && Encodes(CID_PREFIX + digest, text)
    ensures |text| == 58 && text[..6] == CID_LETTERS
  {
    var t := DigitsOf(text);
    var head, tail := t[..6], t[6..];
    assert t == head + tail && |text| == 58 && Pad(36) == 2;
    CidHead(digest, head, tail);
    Letters(text);
    SixLetters();
    var six: seq<nat> := [0, 5, 10, 17, 4, 8];
    hide Letter, DigitsOf;
    forall k | 0 <= k < 6 ensures text[k] == CID_LETTERS[k] {
      assert head[k] == t[k] && head[k] == six[k];
      assert text[k] == Letter(six[k]);
    }
  }

  lemma SixLetters()
    ensures Letter(0) == 'a' && Letter(5) == 'f' && Letter(10) == 'k' && Letter(17) == 'r' && Letter(4) == 'e'
              && Letter(8) == 'i'
  {
  }

  lemma CidHead(digest: seq<byte>, head: seq<nat>, tail: seq<nat>)
    requires |digest| == 32 && |head| == 6 && |tail| == 52 && Below(head, 32) && Below(tail, 32)
    requires Value(head + tail, 32) == Shl(Value(CID_PREFIX + digest, 256), 2)
    ensures head == [0, 5, 10, 17, 4, 8]
  {
    hide *;
    var n := |digest|;
    var six: seq<nat> := [0, 5, 10, 17, 4, 8];
    PrefixValue();
    LettersValue();
    SmallPowers();
    ValueConcat(head, tail, 32, 5);
    ValueConcat(CID_PREFIX, digest, 256, 8);
    ValueBound(tail, 32, 5);
    ByteBound(digest);
    Pow2Sum(8 * n, 4);
    assert 8 * n + 4 == 5 * |tail|;
    LeadingDigits(Value(head, 32), Value(digest, 256), Value(six, 32), Value(tail, 32), Pow2(5 * |tail|), Pow2(8 * n));
    SixBelow();
    ValueInjective(head, six, 32);
  }

  lemma SmallPowers()
    ensures Pow2(4) == 16 && Pow2(5) == 32 && Pow2(8) == 256
  {
  }

  lemma ByteBound(data: seq<byte>)
    ensures Value(data, 256) < Pow2(8 * |data|)
  {
    SmallPowers();
    ValueBound(data, 256, 8);
  }

  lemma SixBelow()
    ensures Below([0, 5, 10, 17, 4, 8], 32)
  {
  }

  /** `looks_like_cid` */
  predicate LooksLikeCid(s: string) {
    |s| >= 50 && s[..7] == "bafkrei"
  }

  /** `cid_for_content`, given the content's sha-256. */
  method CidForContent(digest: seq<byte>) returns (cid: string)
    requires |digest| == 32
    ensures |cid| == 59 && cid[0] == 'b' && Encodes(CID_PREFIX + digest, cid[1..])
    ensures LooksLikeCid(cid)
  {
    var text := B32Lower(CID_PREFIX + digest);
    CidLetters(digest, text);
    cid := "b" + text;
    assert cid[1..] == text && cid[..7] == "b" + text[..6];
  }

  /** Different digests, different content ids. */
  lemma CidInjective(a: seq<byte>, b: seq<byte>, cid: string)
    requires |cid| > 0 && Encodes(CID_PREFIX + a, cid[1..]) && Encodes(CID_PREFIX + b, cid[1..])
    ensures a == b
  {
    EncodingInjective(CID_PREFIX + a, CID_PREFIX + b, cid[1..]);
    assert a == (CID_PREFIX + a)[4..] && b == (CID_PREFIX + b)[4..];
  }
}
