/** Iterating over a core set, its length, and the high- and low-priority split. */
module CpuSplit {
  import opened ByteStrings
  import opened Bits
  import opened CpuSet

  /** __iter__ up to core k: the cores of m below k, in increasing order. */
  function Cores(m: nat, k: nat): (cs: seq<nat>)
    ensures forall i: nat :: i in cs <==> i < k && Bit(m, i)
    ensures Increasing(cs)
  {
    if k == 0 then []
    else
      var cs := Cores(m, k - 1);
      assert forall i :: 0 <= i < |cs| ==> cs[i] in cs;
      cs + if Bit(m, k - 1) then [k - 1] else []
  }

  function AllCores(m: nat): (cs: seq<nat>)
    ensures forall i: nat :: i in cs <==> Bit(m, i)
    ensures Increasing(cs)
  {
    BitsBelow(m);
    Cores(m, BitLength(m) + 1)
  }

  lemma BitsBelow(m: nat)
    ensures forall i: nat :: Bit(m, i) ==> i < BitLength(m) + 1
  {
    forall i: nat | Bit(m, i) ensures i < BitLength(m) + 1 {
      BitBelowLength(m, i);
    }
  }

  predicate Increasing(cs: seq<nat>) {
    forall i, j :: 0 <= i < j < |cs| ==> cs[i] < cs[j]
  }

  // ----- __len__ -----

  lemma {:induction false} CoresHalve(m: nat, k: nat)
    ensures |Cores(m, k + 1)| == m % 2 + |Cores(m / 2, k)|
  {
    if k > 0 {
      CoresHalve(m, k - 1);
      assert Bit(m, k) == Bit(m / 2, k - 1);
    } else {
      assert Cores(m, 0) == [] && Cores(m / 2, 0) == [];
    }
  }

  lemma {:induction false} CountCores(m: nat, k: nat)
    requires k >= BitLength(m)
    ensures |Cores(m, k)| == Count(m)
    decreases k
  {
    if k == 0 {
    } else {
      CoresHalve(m, k - 1);
      CountCores(m / 2, k - 1);
    }
  }

  /** The number of bits set is the number of cores. */
  lemma CountIsLength(m: nat)
    ensures |AllCores(m)| == Count(m)
  {
    CountCores(m, BitLength(m) + 1);
  }

  /** Clearing the lowest bit until nothing is left counts the cores. */
  method Len(m: nat) returns (length: nat)
    ensures length == |AllCores(m)|
  {
    hide Count, And, AllCores;
    var tmp := m;
    length := 0;
    while tmp > 0
      invariant length + Count(tmp) == Count(m)
    {
      ClearLowest(tmp);
      length, tmp := length + 1, And(tmp, tmp - 1);
    }
    CountIsLength(m);
    NothingSet();
  }

  lemma NothingSet()
    ensures Count(0) == 0
  {
  }

  // ----- all_cores -----

  function Names(cs: seq<nat>): (ps: seq<Bytes>)
    ensures |ps| == |cs| && forall k :: 0 <= k < |cs| ==> ps[k] == Dec(cs[k])
  {
    seq(|cs|, k requires 0 <= k < |cs| => Dec(cs[k]))
  }

  /** A joined list of core numbers denotes exactly those cores. */
  lemma NamesDesc(cs: seq<nat>, i: nat)
    requires cs != []
    ensures Bit(FromDesc(Join(Names(cs))), i) <==> i in cs
  {
    hide Bit, FromDesc, Join, Dec;
    var ps := Names(cs);
    forall k | 0 <= k < |cs| ensures Bit(FromDesc(ps[k]), i) <==> i == cs[k] {
      NumberDesc(cs[k], i);
    }
    JoinDesc(ps, i);
  }

  /** from_desc undoes all_cores. */
  lemma AllCoresRoundTrip(m: nat)
    requires m > 0
    ensures FromDesc(Join(Names(AllCores(m)))) == m
  {
    hide Bit, FromDesc, Join, Names, AllCores;
    SomeBit(m);
    var b: nat :| Bit(m, b);
    assert b in AllCores(m);
    forall i: nat ensures Bit(FromDesc(Join(Names(AllCores(m)))), i) <==> Bit(m, i) {
      NamesDesc(AllCores(m), i);
    }
    SameBits(FromDesc(Join(Names(AllCores(m)))), m);
  }

  /** A strictly increasing list is determined by its elements. */
  lemma {:induction false} SameCores(a: seq<nat>, b: seq<nat>)
    requires Increasing(a) && Increasing(b) && forall i: nat :: i in a <==> i in b
    ensures a == b
    decreases |a|
  {
    if a == [] {
      assert forall k :: 0 <= k < |b| ==> b[k] in a;
    } else {
      assert a[0] in b;
      var x, y := a[|a| - 1], b[|b| - 1];
      assert x in a && y in b && x in b && y in a;
      var a', b' := a[..|a| - 1], b[..|b| - 1];
      assert x == y;
      forall i: nat ensures i in a' <==> i in b' {
        LastOut(a, i);
        LastOut(b, i);
      }
      SameCores(a', b');
    }
  }

  lemma LastOut(a: seq<nat>, i: nat)
    requires Increasing(a) && a != []
    ensures i in a[..|a| - 1] <==> i in a && i != a[|a| - 1]
  {
  }

  // ----- get_hp_lp_cores -----

  /** The integer part of total * ratio / 100, kept within the list. */
  function Share(total: nat, ratio: int): (h: nat)
    ensures h <= total
    ensures forall i: nat :: 1 <= i <= total ==> (100 * i <= total * ratio <==> i <= h)
  {
    var q := total * ratio / 100;
    if q < 0 then 0 else if q > total then total else q
  }

  function HighCores(m: nat, ratio: int): nat {
    FromDesc(Join(Names(AllCores(m)[..Share(|AllCores(m)|, ratio)])))
  }

  function LowCores(m: nat, ratio: int): nat {
    FromDesc(Join(Names(AllCores(m)[Share(|AllCores(m)|, ratio)..])))
  }

  ghost predicate Partition(m: nat, a: nat, b: nat) {
    forall i: nat :: (Bit(m, i) <==> Bit(a, i) || Bit(b, i)) && !(Bit(a, i) && Bit(b, i))
  }

  lemma CoresOfNames(cs: seq<nat>)
    requires cs != [] && Increasing(cs)
    ensures AllCores(FromDesc(Join(Names(cs)))) == cs
  {
    hide Bit, FromDesc, Join, Names, AllCores;
    var m := FromDesc(Join(Names(cs)));
    forall i: nat ensures i in AllCores(m) <==> i in cs {
      NamesDesc(cs, i);
    }
    SameCores(AllCores(m), cs);
  }

  /** With both parts non-empty the split is a partition of the requested sizes, high cores below low cores. */
  lemma SplitPartitions(m: nat, ratio: int)
    requires var total := |AllCores(m)|; 100 <= total * ratio < 100 * total
    ensures var total := |AllCores(m)|; var hp, lp := HighCores(m, ratio), LowCores(m, ratio);
            && Partition(m, hp, lp)
            && |AllCores(hp)| == total * ratio / 100 && |AllCores(lp)| == total - total * ratio / 100
            && forall i: nat, j: nat :: Bit(hp, i) && Bit(lp, j) ==> i < j
  {
    hide Bit, FromDesc, Join, Names, AllCores;
    var cs := AllCores(m);
    var h := Share(|cs|, ratio);
    assert 1 <= h < |cs| && h == |cs| * ratio / 100;
    var a, b := cs[..h], cs[h..];
    CoresOfNames(a);
    CoresOfNames(b);
    forall i: nat ensures i in cs <==> i in a || i in b {
      assert cs == a + b;
    }
    assert forall i: nat, j: nat :: i in a && j in b ==> i < j;
  }

  lemma EmptyDesc()
    ensures FromDesc([]) == 1
  {
    assert Power(0) == 1 && Range(1, 0) == 0;
    assert Or(1, 0) == 1;
    var none: Bytes := [];
    assert TakeAll(FRESH, none) == FRESH;
  }

  /** An empty part turns into core 0, so the split is a partition exactly when neither part is empty. */
  lemma SplitExactly(m: nat, ratio: int)
    requires m > 0
    ensures var total := |AllCores(m)|;
            Partition(m, HighCores(m, ratio), LowCores(m, ratio)) <==> 100 <= total * ratio < 100 * total
  {
    hide FromDesc, Join, Names, AllCores;
    var cs := AllCores(m);
    var h := Share(|cs|, ratio);
    if 100 <= |cs| * ratio < 100 * |cs| {
      SplitPartitions(m, ratio);
    } else {
      assert h == 0 || h == |cs|;
      assert cs[..|cs|] == cs && cs[0..] == cs;
      AllCoresRoundTrip(m);
      NoNames(cs[..0]);
      NoNames(cs[|cs|..]);
      EmptyDesc();
      assert Bit(1, 0);
      assert !Partition(m, HighCores(m, ratio), LowCores(m, ratio));
    }
  }

  /** Every description denotes at least one core, so a split always has a set to work on. */
  lemma SomeCore(t: Bytes)
    ensures FromDesc(t) > 0
  {
    hide Bit, Or, TakeAll, SetMask;
    var s := TakeAll(FRESH, t);
    OrBit(s.cores, SetMask(s.begin, s.tmp), s.tmp);
    MaskHolds(s.begin, s.tmp);
    ZeroBit(s.tmp);
  }

  lemma MaskHolds(b: Option<nat>, e: nat)
    ensures Bit(SetMask(b, e), e)
  {
    hide Bit, Range;
    var lo := if b.None? then e else b.value;
    RangeBit(lo, e, e);
    RangeBit(e, lo, e);
  }

  /** With ratio 0 the high class is core 0 instead of nothing. */
  lemma RatioZero(m: nat)
    requires m > 0
    ensures !Partition(m, HighCores(m, 0), LowCores(m, 0))
  {
    hide *;
    SplitExactly(m, 0);
  }

  lemma NoNames(cs: seq<nat>)
    requires |cs| == 0
    ensures Join(Names(cs)) == []
  {
  }

  // ----- the loops -----

  /** CPUcores.from_desc. */
  method ParseDesc(desc: Bytes) returns (cores: nat)
    ensures cores == FromDesc(desc)
  {
    hide Or, SetMask;
    var begin: Option<nat>, tmp: nat := None, 0;
    cores := 0;
    for k := 0 to |desc|
      invariant TakeAll(FRESH, desc) == TakeAll(Scan(cores, begin, tmp), desc[k..])
    {
      var c := desc[k];
      assert desc[k..][1..] == desc[k + 1..];
      if IsDigit(c) {
        tmp := tmp * 10 + c - 48;
        continue;
      }
      var end := tmp;
      if begin == None {
        begin := Some(tmp);
      }
      if c != DASH {
        var mask := MakeMask(begin, end);
        cores := Or(cores, mask);
        begin := None;
      }
      tmp := 0;
    }
    var mask := MakeMask(begin, tmp);
    cores := Or(cores, mask);
  }

  /** set_mask. */
  method MakeMask(b: Option<nat>, e: nat) returns (src: nat)
    ensures src == SetMask(b, e)
  {
    var lo, hi := if b == None then e else b.value, e;
    if lo > hi {
      lo, hi := hi, lo;
    }
    src := 0;
    forall j: nat ensures !Bit(0, j) {
      ZeroBit(j);
    }
    for i := lo to hi + 1
      invariant forall j: nat :: Bit(src, j) <==> lo <= j < i
    {
      MaskStep(src, lo, i);
      src := Or(src, Power(i));
    }
    MaskDone(src, lo, hi);
  }

  lemma MaskStep(src: nat, lo: nat, i: nat)
    requires lo <= i && forall j: nat :: Bit(src, j) <==> lo <= j < i
    ensures forall j: nat :: Bit(Or(src, Power(i)), j) <==> lo <= j < i + 1
  {
    hide Bit, Or, Power;
    forall j: nat ensures Bit(Or(src, Power(i)), j) <==> lo <= j < i + 1 {
      OrBit(src, Power(i), j);
      PowerBit(i, j);
    }
  }

  lemma MaskDone(src: nat, lo: nat, hi: nat)
    requires forall j: nat :: Bit(src, j) <==> lo <= j <= hi
    ensures src == Range(lo, hi)
  {
    hide Bit;
    forall j: nat ensures Bit(src, j) <==> Bit(Range(lo, hi), j) {
      RangeBit(lo, hi, j);
    }
    SameBits(src, Range(lo, hi));
  }

  lemma TestBit(m: nat, k: nat)
    ensures And(Power(k), m) != 0 <==> Bit(m, k)
  {
    hide Bit, And, Power;
    AndBit(Power(k), m, k);
    PowerBit(k, k);
    ZeroBit(k);
    if And(Power(k), m) != 0 {
      SomeBit(And(Power(k), m));
      var i: nat :| Bit(And(Power(k), m), i);
      AndBit(Power(k), m, i);
      PowerBit(k, i);
    }
  }

  /** CPUcores.__str__. */
  method Print(m: nat) returns (text: Bytes)
    ensures text == Str(m)
    ensures m > 0 ==> FromDesc(text) == m
  {
    hide And, Power, Bit, FromDesc, Join, Runs, Pieces, Fmt, BitLength;
    var coreId, step, desc: seq<Bytes> := 0, 0, [];
    while coreId <= BitLength(m)
      invariant step <= coreId <= BitLength(m) + 1
      invariant Pieces(Runs(m, 0, 0)) == desc + Pieces(Runs(m, coreId, step))
    {
      TestBit(m, coreId);
      RunsStep(m, coreId, step);
      if And(Power(coreId), m) != 0 {
        step := step + 1;
      } else {
        if step > 0 {
          desc := desc + [Fmt(Run(coreId - 1, step))];
        }
        step := 0;
      }
      coreId := coreId + 1;
    }
    NoRuns(m, coreId, step);
    assert Pieces(Runs(m, 0, 0)) == desc;
    text := Join(desc);
    if m > 0 {
      StrRoundTrip(m);
    }
  }

  lemma RunsStep(m: nat, id: nat, step: nat)
    requires step <= id <= BitLength(m)
    ensures Pieces(Runs(m, id, step)) ==
            if Bit(m, id) then Pieces(Runs(m, id + 1, step + 1))
            else (if step > 0 then [Fmt(Run(id - 1, step))] else []) + Pieces(Runs(m, id + 1, 0))
  {
    hide Bit, Fmt, BitLength;
    var rest := Runs(m, id + 1, 0);
    if !Bit(m, id) && step > 0 {
      PiecesCons(Run(id - 1, step), rest);
    } else if !Bit(m, id) {
      assert [] + rest == rest && [] + Pieces(rest) == Pieces(rest);
    }
  }

  lemma NoRuns(m: nat, id: nat, step: nat)
    requires step <= id && id > BitLength(m)
    ensures Pieces(Runs(m, id, step)) == []
  {
  }

  lemma PiecesCons(r: Run, rs: seq<Run>)
    requires Proper(r) && AllProper(rs)
    ensures AllProper([r] + rs) && Pieces([r] + rs) == [Fmt(r)] + Pieces(rs)
  {
    hide Fmt;
  }

  /** CPUcores.__iter__, collected. */
  method Iterate(m: nat) returns (cs: seq<nat>)
    ensures cs == AllCores(m)
  {
    hide BitLength, And, Power, Bit;
    var coreId := 0;
    cs := [];
    while coreId <= BitLength(m)
      invariant coreId <= BitLength(m) + 1 && cs == Cores(m, coreId)
    {
      TestBit(m, coreId);
      if And(Power(coreId), m) != 0 {
        cs := cs + [coreId];
      }
      coreId := coreId + 1;
    }
  }

  /** get_hp_lp_cores. */
  method SplitCores(desc: Bytes, ratio: int) returns (hp: nat, lp: nat)
    ensures hp == HighCores(FromDesc(desc), ratio) && lp == LowCores(FromDesc(desc), ratio)
  {
    hide FromDesc, AllCores, Join, Share, Names, Dec;
    var m := ParseDesc(desc);
    var total := Len(m);
    var cores := Iterate(m);
    var high: seq<Bytes>, low: seq<Bytes> := [], [];
    var i := 0;
    ghost var h := Share(total, ratio);
    var bound := total * ratio;
    while i < |cores|
      invariant 0 <= i <= |cores|
      invariant high == Names(cores[..if i < h then i else h])
      invariant low == Names(cores[h..if i < h then h else i])
    {
      var core := cores[i];
      i := i + 1;
      if 100 * i <= bound {
        NamesSnoc(cores[..i - 1], core);
        assert cores[..i] == cores[..i - 1] + [core];
        high := high + [Dec(core)];
      } else {
        NamesSnoc(cores[h..i - 1], core);
        assert cores[h..i] == cores[h..i - 1] + [core];
        low := low + [Dec(core)];
      }
    }
    assert cores[h..|cores|] == cores[h..];
    hp := ParseDesc(Join(high));
    lp := ParseDesc(Join(low));
  }

  lemma NamesSnoc(cs: seq<nat>, c: nat)
    ensures Names(cs + [c]) == Names(cs) + [Dec(c)]
  {
    hide Dec;
  }
}
