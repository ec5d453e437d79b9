/** CPUcores: a core set as an integer mask, its description and its printed form. */
module CpuSet {
  import opened ByteStrings
  import opened Bits

  const DASH: byte := 45
  const COMMA: byte := ',' as int

  // ----- from_desc -----

  /** Bits b to e in either order; b absent means b == e. */
  function SetMask(b: Option<nat>, e: nat): nat {
    var lo := if b.None? then e else b.value;
    if lo > e then Range(e, lo) else Range(lo, e)
  }

  /** The loop of set_mask: bits lo to hi. */
  function Range(lo: nat, hi: nat): nat
    decreases hi + 1 - lo
  {
    if lo > hi then 0 else Or(Power(lo), Range(lo + 1, hi))
  }

  lemma {:induction false} RangeBit(lo: nat, hi: nat, i: nat)
    ensures Bit(Range(lo, hi), i) <==> lo <= i <= hi
    decreases hi + 1 - lo
  {
    hide Bit, Or, Power;
    if lo > hi {
      ZeroBit(i);
    } else {
      OrBit(Power(lo), Range(lo + 1, hi), i);
      PowerBit(lo, i);
      RangeBit(lo + 1, hi, i);
    }
  }

  /** The loop state of from_desc. */
  datatype Scan = Scan(cores: nat, begin: Option<nat>, tmp: nat)

  function Take(s: Scan, c: byte): Scan {
    if IsDigit(c) then s.(tmp := s.tmp * 10 + c - 48)
    else
      var begin := if s.begin.None? then Some(s.tmp) else s.begin;
      if c == DASH then Scan(s.cores, begin, 0) else Scan(Or(s.cores, SetMask(begin, s.tmp)), None, 0)
  }

  function TakeAll(s: Scan, t: Bytes): Scan
    decreases |t|
  {
    if t == [] then s else TakeAll(Take(s, t[0]), t[1..])
  }

  function Done(s: Scan): nat {
    Or(s.cores, SetMask(s.begin, s.tmp))
  }

  const FRESH := Scan(0, None, 0)

  function FromDesc(t: Bytes): nat {
    Done(TakeAll(FRESH, t))
  }

  // ----- cores seen so far only add up -----

  lemma OrLaws(a: nat, b: nat, c: nat)
    ensures Or(Or(a, b), c) == Or(a, Or(b, c)) && Or(0, a) == a
  {
    hide Or, Bit;
    forall i: nat ensures Bit(Or(Or(a, b), c), i) <==> Bit(Or(a, Or(b, c)), i) {
      OrBit(Or(a, b), c, i);
      OrBit(a, b, i);
      OrBit(a, Or(b, c), i);
      OrBit(b, c, i);
    }
    SameBits(Or(Or(a, b), c), Or(a, Or(b, c)));
    OrNone(a);
  }

  lemma OrNone(a: nat)
    ensures Or(0, a) == a
  {
  }

  lemma {:induction false} TakeAllAdds(s: Scan, t: Bytes)
    ensures var r := TakeAll(s.(cores := 0), t); TakeAll(s, t) == r.(cores := Or(s.cores, r.cores))
    decreases |t|
  {
    hide Or, SetMask;
    if t == [] {
      OrZero(s.cores);
    } else {
      var s1, z1 := Take(s, t[0]), Take(s.(cores := 0), t[0]);
      TakeAllAdds(s1, t[1..]);
      TakeAllAdds(z1, t[1..]);
      OrZero(s.cores);
      var r := TakeAll(s1.(cores := 0), t[1..]).cores;
      assert s1.(cores := 0) == z1.(cores := 0);
      assert s1.cores == Or(s.cores, z1.cores) by {
        OrNone(SetMask(if s.begin.None? then Some(s.tmp) else s.begin, s.tmp));
      }
      OrLaws(s.cores, z1.cores, r);
    }
  }

  lemma OrZero(a: nat)
    ensures Or(a, 0) == a
  {
  }

  lemma {:induction false} TakeAllConcat(s: Scan, a: Bytes, b: Bytes)
    ensures TakeAll(s, a + b) == TakeAll(TakeAll(s, a), b)
    decreases |a|
  {
    hide Take;
    if a == [] {
      assert a + b == b;
    } else {
      assert (a + b)[1..] == a[1..] + b;
      TakeAllConcat(Take(s, a[0]), a[1..], b);
    }
  }

  /** Any character but a digit and a dash separates: the whole denotes the union, whatever the parts contain. */
  lemma DescUnion(a: Bytes, sep: byte, b: Bytes)
    requires !IsDigit(sep) && sep != DASH
    ensures FromDesc(a + [sep] + b) == Or(FromDesc(a), FromDesc(b))
  {
    hide Or, SetMask, TakeAll;
    var s := TakeAll(FRESH, a);
    TakeAllConcat(FRESH, a + [sep], b);
    TakeAllConcat(FRESH, a, [sep]);
    TakeOne(s, sep);
    SetMaskSelf(s.begin, s.tmp);
    var c := Take(s, sep);
    assert c == Scan(FromDesc(a), None, 0);
    TakeAllAdds(c, b);
    var r := TakeAll(FRESH, b);
    OrLaws(FromDesc(a), r.cores, SetMask(r.begin, r.tmp));
  }

  lemma TakeOne(s: Scan, c: byte)
    ensures TakeAll(s, [c]) == Take(s, c)
  {
    assert [c][1..] == [];
  }

  lemma SetMaskSelf(b: Option<nat>, e: nat)
    ensures SetMask(if b.None? then Some(e) else b, e) == SetMask(b, e)
  {
  }

  // ----- a number and a range -----

  lemma {:induction false} TakeDigits(s: Scan, d: Bytes)
    requires forall i :: 0 <= i < |d| ==> IsDigit(d[i])
    ensures TakeAll(s, d) == s.(tmp := DigitsValue(d, s.tmp))
    decreases |d|
  {
    if d != [] {
      TakeDigits(Take(s, d[0]), d[1..]);
    }
  }

  lemma TakeNumber(s: Scan, n: nat)
    requires s.tmp == 0
    ensures TakeAll(s, Dec(n)) == s.(tmp := n)
  {
    hide Dec, TakeAll;
    TakeDigits(s, Dec(n));
    DecValue(n);
  }

  /** A decimal number denotes one core. */
  lemma NumberDesc(n: nat, i: nat)
    ensures Bit(FromDesc(Dec(n)), i) <==> i == n
  {
    hide Bit, Or, Range, TakeAll, Dec;
    TakeNumber(FRESH, n);
    OrNone(Range(n, n));
    RangeBit(n, n, i);
  }

  /** Digits and dashes behind the first dash of a range leave its beginning alone. */
  lemma {:induction false} DashesKeep(s: Scan, t: Bytes)
    requires s.begin.Some? && forall k :: 0 <= k < |t| ==> IsDigit(t[k]) || t[k] == DASH
    ensures var r := TakeAll(s, t);
            && r.cores == s.cores && r.begin == s.begin && (t == [] ==> r == s)
            && (t != [] && t[|t| - 1] == DASH ==> r.tmp == 0)
    decreases |t|
  {
    hide Or, SetMask;
    if t != [] {
      DashesKeep(Take(s, t[0]), t[1..]);
    }
  }

  /** "a-b" denotes the cores between a and b, in either order; of a longer chain of dashes the ends count. */
  lemma RangeDesc(a: nat, mid: Bytes, b: nat, i: nat)
    requires forall k :: 0 <= k < |mid| ==> IsDigit(mid[k]) || mid[k] == DASH
    requires mid == [] || mid[|mid| - 1] == DASH
    ensures Bit(FromDesc(Dec(a) + [DASH] + mid + Dec(b)), i) <==> a <= i <= b || b <= i <= a
  {
    hide Bit, Or, Range, TakeAll, Dec;
    TakeAllConcat(FRESH, Dec(a) + [DASH] + mid, Dec(b));
    TakeAllConcat(FRESH, Dec(a) + [DASH], mid);
    TakeAllConcat(FRESH, Dec(a), [DASH]);
    TakeNumber(FRESH, a);
    TakeOne(Scan(0, None, a), DASH);
    DashesKeep(Scan(0, Some(a), 0), mid);
    TakeNumber(Scan(0, Some(a), 0), b);
    OrNone(SetMask(Some(a), b));
    RangeBit(a, b, i);
    RangeBit(b, a, i);
  }

  // ----- joined descriptions -----

  function Join(ps: seq<Bytes>): Bytes
    decreases |ps|
  {
    if ps == [] then [] else if |ps| == 1 then ps[0] else Join(ps[..|ps| - 1]) + [COMMA] + ps[|ps| - 1]
  }

  ghost predicate Covered(ps: seq<Bytes>, i: nat) {
    exists k :: 0 <= k < |ps| && Bit(FromDesc(ps[k]), i)
  }

  lemma CoveredSnoc(ps: seq<Bytes>, p: Bytes, i: nat)
    ensures Covered(ps + [p], i) <==> Covered(ps, i) || Bit(FromDesc(p), i)
  {
    hide Bit, FromDesc;
    var r := ps + [p];
    if Covered(ps, i) {
      var k :| 0 <= k < |ps| && Bit(FromDesc(ps[k]), i);
      assert r[k] == ps[k];
    }
    assert r[|ps|] == p;
    if Covered(r, i) {
      var k :| 0 <= k < |r| && Bit(FromDesc(r[k]), i);
      assert k < |ps| ==> r[k] == ps[k];
    }
  }

  /** A comma-joined list denotes the union of its pieces; the empty list would denote core 0. */
  lemma {:induction false} JoinDesc(ps: seq<Bytes>, i: nat)
    requires ps != []
    ensures Bit(FromDesc(Join(ps)), i) <==> Covered(ps, i)
    decreases |ps|
  {
    hide Bit, FromDesc, Or;
    if |ps| > 1 {
      var front, p := ps[..|ps| - 1], ps[|ps| - 1];
      JoinDesc(front, i);
      DescUnion(Join(front), COMMA, p);
      OrBit(FromDesc(Join(front)), FromDesc(p), i);
      CoveredSnoc(front, p, i);
      assert front + [p] == ps;
    } else {
      assert ps[0] == Join(ps);
    }
  }

  // ----- __str__ -----

  /** A run of cores, by its last core and its length. */
  datatype Run = Run(last: nat, length: nat)

  predicate Proper(r: Run) {
    1 <= r.length <= r.last + 1
  }

  predicate Within(r: Run, i: nat) {
    r.last < i + r.length && i <= r.last
  }

  function Fmt(r: Run): Bytes
    requires Proper(r)
  {
    if r.length == 1 then Dec(r.last)
    else if r.length == 2 then Dec(r.last - 1) + [COMMA] + Dec(r.last)
    else Dec(r.last + 1 - r.length) + [DASH] + Dec(r.last)
  }

  lemma FmtDesc(r: Run, i: nat)
    requires Proper(r)
    ensures Bit(FromDesc(Fmt(r)), i) <==> Within(r, i)
  {
    hide Bit, FromDesc, Or, Dec;
    NumberDesc(r.last, i);
    if r.length == 2 {
      NumberDesc(r.last - 1, i);
      DescUnion(Dec(r.last - 1), COMMA, Dec(r.last));
      OrBit(FromDesc(Dec(r.last - 1)), FromDesc(Dec(r.last)), i);
    } else if r.length > 2 {
      RangeDesc(r.last + 1 - r.length, [], r.last, i);
      assert Dec(r.last + 1 - r.length) + [DASH] + [] == Dec(r.last + 1 - r.length) + [DASH];
    }
  }

  predicate AllProper(rs: seq<Run>) {
    forall k :: 0 <= k < |rs| ==> Proper(rs[k])
  }

  function Pieces(rs: seq<Run>): (ps: seq<Bytes>)
    requires AllProper(rs)
    ensures |ps| == |rs| && forall k :: 0 <= k < |rs| ==> ps[k] == Fmt(rs[k])
  {
    seq(|rs|, k requires 0 <= k < |rs| => Fmt(rs[k]))
  }

  /** The loop of __str__ from core id on, with a run of step cores just before it. */
  function Runs(m: nat, id: nat, step: nat): (rs: seq<Run>)
    requires step <= id
    ensures AllProper(rs)
    decreases BitLength(m) + 1 - id
  {
    if id > BitLength(m) then []
    else if Bit(m, id) then Runs(m, id + 1, step + 1)
    else (if step > 0 then [Run(id - 1, step)] else []) + Runs(m, id + 1, 0)
  }

  function Str(m: nat): Bytes {
    Join(Pieces(Runs(m, 0, 0)))
  }

  ghost predicate InRuns(rs: seq<Run>, i: nat) {
    exists k :: 0 <= k < |rs| && Within(rs[k], i)
  }

  lemma InRunsCons(r: Run, rs: seq<Run>, i: nat)
    ensures InRuns([r] + rs, i) <==> Within(r, i) || InRuns(rs, i)
  {
    hide Within;
    var t := [r] + rs;
    assert t[0] == r;
    if InRuns(rs, i) {
      var k :| 0 <= k < |rs| && Within(rs[k], i);
      assert t[k + 1] == rs[k];
    }
    if InRuns(t, i) {
      var k :| 0 <= k < |t| && Within(t[k], i);
      assert k > 0 ==> t[k] == rs[k - 1];
    }
  }

  /** The runs found from id on are exactly the cores from id on, with the pending run before them. */
  lemma {:induction false} RunsCover(m: nat, id: nat, step: nat, i: nat)
    requires step <= id <= BitLength(m) + 1 && (id == BitLength(m) + 1 ==> step == 0)
    ensures InRuns(Runs(m, id, step), i) <==> (id <= i && Bit(m, i)) || id <= i + step < id + step
    decreases BitLength(m) + 1 - id
  {
    hide Bit, BitLength;
    if Bit(m, i) {
      BitBelowLength(m, i);
    }
    if id <= BitLength(m) {
      if Bit(m, id) {
        BitBelowLength(m, id);
        RunsCover(m, id + 1, step + 1, i);
      } else {
        RunsCover(m, id + 1, 0, i);
        if step > 0 {
          InRunsCons(Run(id - 1, step), Runs(m, id + 1, 0), i);
        } else {
          assert [] + Runs(m, id + 1, 0) == Runs(m, id + 1, 0);
        }
      }
    }
  }

  lemma PiecesCover(rs: seq<Run>, i: nat)
    requires AllProper(rs)
    ensures Covered(Pieces(rs), i) <==> InRuns(rs, i)
  {
    hide Bit, FromDesc, Fmt, Within;
    var ps := Pieces(rs);
    forall k | 0 <= k < |rs| ensures Bit(FromDesc(ps[k]), i) <==> Within(rs[k], i) {
      FmtDesc(rs[k], i);
    }
  }

  /** Reading a printed core set gives it back. */
  lemma StrRoundTrip(m: nat)
    requires m > 0
    ensures FromDesc(Str(m)) == m
  {
    hide Bit, FromDesc, Runs, Join, Pieces;
    var rs := Runs(m, 0, 0);
    SomeBit(m);
    var b: nat :| Bit(m, b);
    RunsCover(m, 0, 0, b);
    assert rs != [] && Pieces(rs) != [];
    forall i: nat ensures Bit(FromDesc(Str(m)), i) <==> Bit(m, i) {
      JoinDesc(Pieces(rs), i);
      PiecesCover(rs, i);
      RunsCover(m, 0, 0, i);
    }
    SameBits(FromDesc(Str(m)), m);
  }

  /** The printed runs are maximal and in order. */
  lemma {:induction false} RunsAreMaximal(m: nat, id: nat, step: nat, k: nat)
    requires step <= id && k < |Runs(m, id, step)|
    requires forall i: nat :: id <= i + step < id + step ==> Bit(m, i)
    requires step < id ==> !Bit(m, id - step - 1)
    ensures var r := Runs(m, id, step)[k];
            && id <= r.last + 1
            && (forall i: nat :: Within(r, i) ==> Bit(m, i))
            && !Bit(m, r.last + 1) && (r.length <= r.last ==> !Bit(m, r.last - r.length))
            && (k > 0 ==> Runs(m, id, step)[k - 1].last + r.length < r.last)
    decreases BitLength(m) + 1 - id
  {
    hide Bit, BitLength;
    if Bit(m, id) {
      RunsAreMaximal(m, id + 1, step + 1, k);
    } else if step == 0 {
      RunsAreMaximal(m, id + 1, 0, k);
    } else if k > 0 {
      RunsAreMaximal(m, id + 1, 0, k - 1);
    }
  }
}
