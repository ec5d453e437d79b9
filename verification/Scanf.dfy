/** The %u conversion of the C library's scanf family, and strtol. */
module Scanf {
  import opened ByteStrings

  const PLUS: byte := '+' as int
  const SPACE: byte := ' ' as int

  datatype Number = Number(value: nat, rest: Bytes) | NoNumber

  function Digits(s: Bytes): (d: Bytes)
    ensures |d| <= |s| && d == s[..|d|] && (forall i :: 0 <= i < |d| ==> IsDigit(d[i]))
    ensures |d| < |s| ==> !IsDigit(s[|d|])
  {
    if s != [] && IsDigit(s[0]) then [s[0]] + Digits(s[1..]) else []
  }

  const TWO_64: int := 0x1_0000_0000_0000_0000

  /** The value of a %u field: an unsigned long, negated after a minus, cut to 32 bits. */
  function UintOf(digits: Bytes, minus: bool): (v: nat)
    ensures v < TWO_32
  {
    var v := DigitsValue(digits, 0);
    var clamped := if v >= TWO_64 then TWO_64 - 1 else v;
    U32(if minus && v < TWO_64 then -clamped else clamped)
  }

  function ScanDigits(s: Bytes, minus: bool): (n: Number)
    ensures n.Number? ==> |n.rest| < |s| && n.value < TWO_32
  {
    var d := Digits(s);
    if d == [] then NoNumber else Number(UintOf(d, minus), s[|d|..])
  }

  /** "%u": blanks, an optional sign, digits. */
  function ScanUint(rest: Bytes): (n: Number)
    ensures n.Number? ==> |n.rest| < |rest| && n.value < TWO_32
  {
    var s := SkipSpace(rest);
    if s != [] && s[0] == MINUS then ScanDigits(s[1..], true)
    else if s != [] && s[0] == PLUS then ScanDigits(s[1..], false)
    else ScanDigits(s, false)
  }

  lemma {:induction false} DigitsOf(d: Bytes, post: Bytes)
    requires forall i :: 0 <= i < |d| ==> IsDigit(d[i])
    requires post == [] || !IsDigit(post[0])
    ensures Digits(d + post) == d
    decreases |d|
  {
    if d == [] {
      assert d + post == post;
    } else {
      assert (d + post)[1..] == d[1..] + post;
      DigitsOf(d[1..], post);
    }
  }

  lemma UintReadsBack(n: nat, post: Bytes)
    requires n < TWO_32 && (post == [] || !IsDigit(post[0]))
    ensures ScanUint(Dec(n) + post) == Number(n, post)
  {
    hide Dec, ScanUint, UintOf;
    DigitsScan(Dec(n), post);
    UintOfDec(n);
  }

  lemma DigitsThenRest(d: Bytes, post: Bytes)
    requires d != [] && forall i :: 0 <= i < |d| ==> IsDigit(d[i])
    requires post == [] || !IsDigit(post[0])
    ensures ScanDigits(d + post, false) == Number(UintOf(d, false), post)
  {
    hide UintOf, Digits;
    DigitsOf(d, post);
    assert (d + post)[|d|..] == post;
  }

  lemma PlainScan(s: Bytes)
    requires s != [] && IsDigit(s[0])
    ensures ScanUint(s) == ScanDigits(s, false)
  {
    hide ScanDigits;
    assert SkipSpace(s) == s;
  }

  lemma DigitsScan(d: Bytes, post: Bytes)
    requires d != [] && forall i :: 0 <= i < |d| ==> IsDigit(d[i])
    requires post == [] || !IsDigit(post[0])
    ensures ScanUint(d + post) == Number(UintOf(d, false), post)
  {
    hide UintOf, ScanUint, ScanDigits;
    DigitsThenRest(d, post);
    assert (d + post)[0] == d[0] && IsDigit(d[0]);
    PlainScan(d + post);
  }

  lemma UintOfDec(n: nat)
    requires n < TWO_32
    ensures UintOf(Dec(n), false) == n
  {
    hide Dec, U32;
    DecValue(n);
  }

  lemma NoSkip(s: Bytes)
    requires s != [] && !IsSpace(s[0])
    ensures SkipSpace(s) == s
  {
  }

  lemma SkipOneSpace(s: Bytes)
    requires s != [] && !IsSpace(s[0])
    ensures SkipSpace([SPACE] + s) == s
  {
    assert ([SPACE] + s)[1..] == s;
    NoSkip(s);
  }

  // ----- strtol -----

  predicate Blanks(g: Bytes) {
    forall k :: 0 <= k < |g| ==> IsSpace(g[k])
  }

  lemma {:induction false} BlanksSkipped(g: Bytes, t: Bytes)
    requires Blanks(g) && (t == [] || !IsSpace(t[0]))
    ensures SkipSpace(g + t) == t
    decreases |g|
  {
    if g == [] {
      assert g + t == t;
    } else {
      assert (g + t)[1..] == g[1..] + t;
      BlanksSkipped(g[1..], t);
    }
  }

  lemma ValueStops(n: nat, post: Bytes)
    requires post == [] || !IsDigit(post[0])
    ensures DigitsValue(Dec(n) + post, 0) == n
  {
    hide Dec;
    DigitsValueDec(n, post);
  }

  lemma StrtolSigned(t: Bytes, digits: Bytes)
    requires t != [] && !IsSpace(t[0]) && digits != [] && IsDigit(digits[0])
    ensures t == [MINUS] + digits ==> Strtol(t) == Clamp(-(DigitsValue(digits, 0) as int))
    ensures t == [PLUS] + digits || t == digits ==> Strtol(t) == Clamp(DigitsValue(digits, 0))
  {
    NoSkip(t);
    hide DigitsValue, Clamp, SkipSpace;
    assert t == [MINUS] + digits || t == [PLUS] + digits ==> t[1..] == digits;
  }

  lemma StrtolSkips(g: Bytes, t: Bytes)
    requires Blanks(g) && t != [] && !IsSpace(t[0])
    ensures Strtol(g + t) == Strtol(t)
  {
    hide SkipSpace, SignedValue;
    BlanksSkipped(g, t);
    NoSkip(t);
  }

  /** strtol takes blanks, a sign and digits, stops at the first other character and saturates. */
  lemma StrtolReads(g: Bytes, sign: Bytes, n: nat, post: Bytes)
    requires Blanks(g) && (sign == [] || sign == [MINUS] || sign == [PLUS]) && (post == [] || !IsDigit(post[0]))
    ensures Strtol(g + (sign + (Dec(n) + post))) == Clamp(if sign == [MINUS] then -(n as int) else n)
  {
    hide Strtol, Dec, DigitsValue, Clamp, SkipSpace;
    var digits := Dec(n) + post;
    var t := sign + digits;
    assert digits[0] == Dec(n)[0] && IsDigit(digits[0]);
    assert t[0] == if sign == [] then digits[0] else sign[0];
    StrtolSkips(g, t);
    StrtolSigned(t, digits);
    ValueStops(n, post);
    if sign == [] {
      assert t == digits;
    }
  }
}
