/** Bytes, C strings, CRLF-terminated lines and the decimal conversions of the C library
    that the protocol code leans on. */
module ByteStrings {

  type byte = b: int | 0 <= b < 256
  type Bytes = seq<byte>

  datatype Option<+T> = None | Some(value: T)

  const NUL: byte := 0
  const CR: byte := 13
  const LF: byte := 10
  const CRLF: Bytes := [CR, LF]
  const MINUS: byte := '-' as int

  const TWO_31: int := 0x8000_0000
  const TWO_32: int := 0x1_0000_0000
  const TWO_63: int := 0x8000_0000_0000_0000

  /** Conversion to a 32-bit unsigned int. */
  function U32(x: int): (r: nat)
    ensures r < TWO_32
    ensures 0 <= x < TWO_32 ==> r == x
  {
    x % TWO_32
  }

  /** Conversion of a long to a 32-bit signed int. */
  function ToInt32(x: int): (r: int)
    ensures -TWO_31 <= r < TWO_31
    ensures -TWO_31 <= x < TWO_31 ==> r == x
  {
    (x + TWO_31) % TWO_32 - TWO_31
  }

  // ----- lines -----

  predicate CrlfAt(s: Bytes, i: int) {
    0 <= i && i + 1 < |s| && s[i] == CR && s[i + 1] == LF
  }

  /** Position of the first CRLF, or -1: what evbuffer_readln looks for with EVBUFFER_EOL_CRLF_STRICT. */
  function FindCrlf(s: Bytes): (i: int)
    ensures -1 <= i
    ensures i >= 0 ==> CrlfAt(s, i) && forall j :: CrlfAt(s, j) ==> i <= j
    ensures i == -1 ==> forall j :: !CrlfAt(s, j)
  {
    if |s| < 2 then -1
    else if s[0] == CR && s[1] == LF then 0
    else
      var i := FindCrlf(s[1..]);
      assert forall j {:trigger CrlfAt(s, j)} :: CrlfAt(s, j) ==> CrlfAt(s[1..], j - 1);
      assert i >= 0 ==> CrlfAt(s, i + 1);
      if i == -1 then -1 else i + 1
  }

  /** A line that has arrived stays the same line when more bytes arrive behind it. */
  lemma FindCrlfExtend(a: Bytes, b: Bytes)
    requires FindCrlf(a) >= 0
    ensures FindCrlf(a + b) == FindCrlf(a)
    ensures (a + b)[..FindCrlf(a)] == a[..FindCrlf(a)]
    ensures (a + b)[FindCrlf(a) + 2..] == a[FindCrlf(a) + 2..] + b
  {
    var i, k := FindCrlf(a), FindCrlf(a + b);
    assert CrlfAt(a + b, i);
    assert k <= i;
    assert CrlfAt(a, k);
  }

  ghost predicate NoCrlf(s: Bytes) {
    forall j :: !CrlfAt(s, j)
  }

  lemma FindCrlfLine(line: Bytes, rest: Bytes)
    requires NoCrlf(line)
    ensures FindCrlf(line + CRLF + rest) == |line|
    ensures (line + CRLF + rest)[..|line|] == line
    ensures (line + CRLF + rest)[|line| + 2..] == rest
  {
    var s := line + CRLF + rest;
    assert CrlfAt(s, |line|);
    forall j | 0 <= j < |line| ensures !CrlfAt(s, j) {
      assert j + 1 < |line| ==> CrlfAt(line, j) == CrlfAt(s, j);
    }
  }

  /** The C string a line buffer denotes: everything before the first NUL. */
  function CString(s: Bytes): (r: Bytes)
    ensures |r| <= |s| && r == s[..|r|] && NUL !in r
    ensures |r| < |s| ==> s[|r|] == NUL
  {
    if s == [] || s[0] == NUL then [] else [s[0]] + CString(s[1..])
  }

  lemma {:induction false} CStringWhole(s: Bytes)
    requires NUL !in s
    ensures CString(s) == s
  {
    if s != [] {
      CStringWhole(s[1..]);
    }
  }

  predicate IsAscii(s: string) {
    forall i :: 0 <= i < |s| ==> s[i] < 128 as char
  }

  /** The bytes of a string literal. */
  function Ascii(s: string): (r: Bytes)
    requires IsAscii(s)
    ensures |r| == |s|
  {
    seq(|s|, i requires 0 <= i < |s| => s[i] as int)
  }

  // ----- decimal numbers -----

  predicate IsDigit(b: byte) {
    48 <= b <= 57
  }

  predicate IsSpace(b: byte) {
    b == 32 || 9 <= b <= 13
  }

  /** Decimal digits of n, most significant first: "%u". */
  function Dec(n: nat): (s: Bytes)
    ensures |s| >= 1
    ensures forall i :: 0 <= i < |s| ==> IsDigit(s[i])
  {
    if n < 10 then [48 + n] else Dec(n / 10) + [48 + n % 10]
  }

  /** "%d" */
  function DecInt(n: int): (s: Bytes)
    ensures |s| >= 1
  {
    if n < 0 then [MINUS] + Dec(-n) else Dec(n)
  }

  /** Value of the digits at the front of s, read on top of acc. */
  function DigitsValue(s: Bytes, acc: nat): nat {
    if s != [] && IsDigit(s[0]) then DigitsValue(s[1..], acc * 10 + (s[0] - 48)) else acc
  }

  lemma {:induction false} DigitsValueDec(n: nat, t: Bytes)
    ensures DigitsValue(Dec(n) + t, 0) == DigitsValue(t, n)
    decreases n
  {
    if n < 10 {
      assert (Dec(n) + t)[1..] == t;
    } else {
      var d: Bytes := [48 + n % 10];
      assert Dec(n) + t == Dec(n / 10) + (d + t);
      DigitsValueDec(n / 10, d + t);
      assert (d + t)[1..] == t;
    }
  }

  function SkipSpace(s: Bytes): (r: Bytes)
    ensures |r| <= |s| && r == s[|s| - |r|..]
    ensures r != [] ==> !IsSpace(r[0])
  {
    if s != [] && IsSpace(s[0]) then SkipSpace(s[1..]) else s
  }

  function Clamp(x: int): int {
    if x < -TWO_63 then -TWO_63 else if x >= TWO_63 then TWO_63 - 1 else x
  }

  /** An optional sign and digits, saturating. */
  function SignedValue(t: Bytes): int {
    if t != [] && t[0] == MINUS then Clamp(-(DigitsValue(t[1..], 0) as int))
    else if t != [] && t[0] == '+' as int then Clamp(DigitsValue(t[1..], 0))
    else Clamp(DigitsValue(t, 0))
  }

  /** strtol(s, NULL, 10) with a 64-bit long: blanks, an optional sign, digits, saturation. */
  function Strtol(s: Bytes): int {
    SignedValue(SkipSpace(s))
  }

  /** The decimal digits of a number have its value. */
  lemma DecValue(n: nat)
    ensures DigitsValue(Dec(n), 0) == n
  {
    hide Dec;
    var none: Bytes := [];
    DigitsValueDec(n, none);
    assert Dec(n) + none == Dec(n);
  }

  lemma PlainStrtol(s: Bytes)
    requires s != [] && IsDigit(s[0])
    ensures Strtol(s) == Clamp(DigitsValue(s, 0))
  {
    hide DigitsValue, Clamp;
    assert SkipSpace(s) == s;
  }

  lemma StrtolDec(n: nat)
    requires n < TWO_63
    ensures Strtol(Dec(n)) == n
  {
    hide Dec, DigitsValue, Strtol;
    assert IsDigit(Dec(n)[0]);
    PlainStrtol(Dec(n));
    DecValue(n);
  }

  lemma DecNoCrlf(n: nat, head: byte)
    requires head != CR && head != LF
    ensures NoCrlf([head] + Dec(n))
  {
    var s := [head] + Dec(n);
    forall j ensures !CrlfAt(s, j) {
      assert 1 <= j < |s| ==> IsDigit(Dec(n)[j - 1]) && s[j] == Dec(n)[j - 1];
    }
  }
}
