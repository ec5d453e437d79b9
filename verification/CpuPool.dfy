/** The CPU pool of one socket with hyperthread siblings side by side, and the pinning of VMs to it. */
module CpuPool {
  import opened ByteStrings

  /** The logical CPUs of a socket, by name. */
  type Cpu = string

  // ----- get_cpu_pool -----

  /** Siblings side by side, last pair first. */
  function Paired(first: seq<Cpu>, second: seq<Cpu>): (p: seq<Cpu>)
    requires |first| == |second|
    ensures |p| == 2 * |first|
    decreases |first|
  {
    if first == [] then []
    else
      var k := |first| - 1;
      [second[k], first[k]] + Paired(first[..k], second[..k])
  }

  /** The hyperthreading branch: alternately the last CPU and the one in the middle of what is left; popping from an
      empty list raises, which happens for an odd number of CPUs. */
  method GetCpuPool(cpus: seq<Cpu>) returns (pool: Option<seq<Cpu>>)
    ensures pool.None? <==> |cpus| % 2 == 1
    ensures pool.Some? ==> var n := |cpus| / 2; pool.value == Paired(cpus[..n], cpus[n..])
  {
    hide Layout;
    var pool1, pool2: seq<Cpu> := cpus, [];
    ghost var k := |cpus| / 2;
    ghost var even := |cpus| % 2 == 0;
    if even {
      LayoutStarts(cpus);
    }
    while |pool1| > 0
      invariant |pool1| == 2 * k + |cpus| % 2
      invariant even ==> Layout(cpus, pool1, pool2, k)
      decreases k
    {
      if even {
        LayoutStep(cpus, pool1, pool2, k);
      }
      pool2 := pool2 + [pool1[|pool1| - 1]];
      pool1 := pool1[..|pool1| - 1];
      var mid := |pool1| / 2;
      if mid >= |pool1| {
        return None;
      }
      pool2 := pool2 + [pool1[mid]];
      pool1 := pool1[..mid] + pool1[mid + 1..];
      k := k - 1;
    }
    LayoutEnds(cpus, pool1, pool2);
    pool := Some(pool2);
  }

  /** With k pairs left: first threads then siblings, and what has been paired so far. */
  ghost predicate Layout(cpus: seq<Cpu>, pool1: seq<Cpu>, pool2: seq<Cpu>, k: nat) {
    var n := |cpus| / 2;
    var first, second := cpus[..n], cpus[n..n + n];
    && k <= n && pool1 == first[..k] + second[..k]
    && Paired(first, second) == pool2 + Paired(first[..k], second[..k])
  }

  lemma LayoutStarts(cpus: seq<Cpu>)
    requires |cpus| % 2 == 0
    ensures Layout(cpus, cpus, [], |cpus| / 2)
  {
    var n := |cpus| / 2;
    var first, second := cpus[..n], cpus[n..n + n];
    assert cpus == first + second && first[..n] == first && second[..n] == second;
  }

  lemma LayoutEnds(cpus: seq<Cpu>, pool1: seq<Cpu>, pool2: seq<Cpu>)
    requires |cpus| % 2 == 0 && Layout(cpus, pool1, pool2, 0)
    ensures pool2 == Paired(cpus[..|cpus| / 2], cpus[|cpus| / 2..])
  {
    var n := |cpus| / 2;
    assert cpus[n..] == cpus[n..n + n];
    assert pool2 + [] == pool2;
  }

  lemma LayoutStep(cpus: seq<Cpu>, pool1: seq<Cpu>, pool2: seq<Cpu>, k: nat)
    requires k > 0 && Layout(cpus, pool1, pool2, k)
    ensures |pool1| == 2 * k
    ensures var q := pool1[..2 * k - 1];
            Layout(cpus, q[..k - 1] + q[k..], pool2 + [pool1[2 * k - 1]] + [q[k - 1]], k - 1)
  {
    hide Paired;
    var n := |cpus| / 2;
    var first, second := cpus[..n], cpus[n..n + n];
    PairedStep(first, second, k);
    var rest := Paired(first[..k - 1], second[..k - 1]);
    var x, y := second[k - 1], first[k - 1];
    assert pool2 + ([x, y] + rest) == pool2 + [x] + [y] + rest;
  }

  /** One round of popping takes the last pair and leaves the others in the same layout. */
  lemma PairedStep(first: seq<Cpu>, second: seq<Cpu>, k: nat)
    requires |first| == |second| && 0 < k <= |first|
    ensures var p := first[..k] + second[..k]; var q := p[..2 * k - 1];
            && p[2 * k - 1] == second[k - 1] && q[k - 1] == first[k - 1]
            && q[..k - 1] + q[k..] == first[..k - 1] + second[..k - 1]
    ensures Paired(first[..k], second[..k]) == [second[k - 1], first[k - 1]] + Paired(first[..k - 1], second[..k - 1])
  {
    assert first[..k][..k - 1] == first[..k - 1] && second[..k][..k - 1] == second[..k - 1];
  }

  lemma {:induction false} PairedAt(first: seq<Cpu>, second: seq<Cpu>, j: nat)
    requires |first| == |second| && j < |first|
    ensures Paired(first, second)[2 * j] == second[|first| - 1 - j]
    ensures Paired(first, second)[2 * j + 1] == first[|first| - 1 - j]
    decreases |first|
  {
    if j > 0 {
      PairedAt(first[..|first| - 1], second[..|first| - 1], j - 1);
    }
  }

  /** Nothing is lost or repeated. */
  lemma {:induction false} PairedPermutes(first: seq<Cpu>, second: seq<Cpu>)
    requires |first| == |second|
    ensures multiset(Paired(first, second)) == multiset(first + second)
    decreases |first|
  {
    if first != [] {
      var k := |first| - 1;
      PairedPermutes(first[..k], second[..k]);
      Snoc(first);
      Snoc(second);
      assert multiset([second[k], first[k]]) == multiset{second[k], first[k]};
    }
  }

  lemma Snoc(s: seq<Cpu>)
    requires s != []
    ensures multiset(s) == multiset(s[..|s| - 1]) + multiset{s[|s| - 1]}
  {
    assert s == s[..|s| - 1] + [s[|s| - 1]];
  }

  // ----- pinning -----

  function Reversed(s: seq<Cpu>): (r: seq<Cpu>)
    ensures |r| == |s| && forall i :: 0 <= i < |s| ==> r[i] == s[|s| - 1 - i]
  {
    seq(|s|, i requires 0 <= i < |s| => s[|s| - 1 - i])
  }

  function Sum(cs: seq<nat>): nat {
    if cs == [] then 0 else cs[0] + Sum(cs[1..])
  }

  /** The CPU set of each VM in turn, popped from the end of the pool. */
  function Pinned(pool: seq<Cpu>, sizes: seq<nat>): (sets: seq<seq<Cpu>>)
    requires Sum(sizes) <= |pool|
    ensures |sets| == |sizes|
    decreases |sizes|
  {
    if sizes == [] then []
    else
      var rest := |pool| - sizes[0];
      [Reversed(pool[rest..])] + Pinned(pool[..rest], sizes[1..])
  }

  /** A VM always gets one CPU, whatever number is asked for. */
  function Need(size: int): nat {
    if size < 1 then 1 else size
  }

  function Needs(sizes: seq<int>): (ns: seq<nat>)
    ensures |ns| == |sizes| && forall v :: 0 <= v < |sizes| ==> ns[v] == Need(sizes[v])
  {
    seq(|sizes|, v requires 0 <= v < |sizes| => Need(sizes[v]))
  }

  /** The pops for one VM: one CPU, then the rest of the number asked for; None when the pool runs out. */
  method PinOne(pool: seq<Cpu>, size: int) returns (taken: Option<seq<Cpu>>, left: seq<Cpu>)
    ensures taken.Some? <==> Need(size) <= |pool|
    ensures taken.Some? ==> taken.value == Reversed(pool[|pool| - Need(size)..]) && left == pool[..|pool| - Need(size)]
  {
    left := pool;
    if |left| == 0 {
      return None, left;
    }
    var cpus := [left[|left| - 1]];
    left := left[..|left| - 1];
    var i := 1;
    while i < size
      invariant 1 <= i <= |pool| && (i <= size || i == 1)
      invariant left == pool[..|pool| - i] && cpus == Reversed(pool[|pool| - i..])
    {
      if |left| == 0 {
        return None, left;
      }
      cpus := cpus + [left[|left| - 1]];
      left := left[..|left| - 1];
      i := i + 1;
    }
    taken := Some(cpus);
  }

  /** All VMs in turn, with affinity on. */
  method PinAll(pool: seq<Cpu>, sizes: seq<int>) returns (sets: Option<seq<seq<Cpu>>>)
    ensures sets.Some? <==> Sum(Needs(sizes)) <= |pool|
    ensures sets.Some? ==> sets.value == Pinned(pool, Needs(sizes))
  {
    hide Sum, Pinned, Reversed, Need;
    ghost var ns := Needs(sizes);
    var left, done := pool, [];
    assert ns[0..] == ns;
    for v := 0 to |sizes|
      invariant Sum(ns) <= |pool| <==> Sum(ns[v..]) <= |left|
      invariant Sum(ns) <= |pool| ==> Pinned(pool, ns) == done + Pinned(left, ns[v..])
    {
      PinnedStep(left, ns, v);
      var taken, rest := PinOne(left, sizes[v]);
      if taken == None {
        return None;
      }
      Regroup(done, taken.value, rest, ns[v + 1..]);
      left, done := rest, done + [taken.value];
    }
    PinnedNone(left, ns[|ns|..]);
    sets := Some(done);
  }

  lemma Regroup(done: seq<seq<Cpu>>, cpus: seq<Cpu>, left: seq<Cpu>, ns: seq<nat>)
    ensures Sum(ns) <= |left| ==> done + ([cpus] + Pinned(left, ns)) == done + [cpus] + Pinned(left, ns)
  {
    hide Sum, Pinned;
  }

  lemma PinnedStep(left: seq<Cpu>, ns: seq<nat>, v: nat)
    requires v < |ns|
    ensures Sum(ns[v..]) == ns[v] + Sum(ns[v + 1..])
    ensures Sum(ns[v..]) <= |left| ==>
              Pinned(left, ns[v..]) == [Reversed(left[|left| - ns[v]..])] + Pinned(left[..|left| - ns[v]], ns[v + 1..])
  {
    hide Reversed;
    assert ns[v..][1..] == ns[v + 1..];
  }

  lemma PinnedNone(left: seq<Cpu>, ns: seq<nat>)
    requires |ns| == 0
    ensures Sum(ns) == 0 && Pinned(left, ns) == []
  {
  }

  /** How many CPUs are given out before VM v. */
  function Given(ns: seq<nat>, v: nat): nat
    requires v <= |ns|
  {
    Sum(ns[..v])
  }

  /** Where a VM's CPUs sit in the pool, counted from the end. */
  lemma {:induction false} PinnedAt(pool: seq<Cpu>, sizes: seq<nat>, v: nat, i: nat)
    requires Sum(sizes) <= |pool| && v < |sizes| && i < sizes[v]
    ensures |Pinned(pool, sizes)[v]| == sizes[v]
    ensures Given(sizes, v) + sizes[v] <= |pool|
    ensures Pinned(pool, sizes)[v][i] == pool[|pool| - 1 - Given(sizes, v) - i]
    decreases |sizes|
  {
    if v > 0 {
      var rest := |pool| - sizes[0];
      PinnedAt(pool[..rest], sizes[1..], v - 1, i);
      assert sizes[..v][1..] == sizes[1..][..v - 1];
    }
  }

  lemma {:induction false} SumGrows(sizes: seq<nat>, v: nat, w: nat)
    requires v < w <= |sizes|
    ensures Given(sizes, v) + sizes[v] <= Given(sizes, w)
    decreases |sizes|
  {
    assert sizes[..w][1..] == sizes[1..][..w - 1];
    if v > 0 {
      assert sizes[..v][1..] == sizes[1..][..v - 1];
      SumGrows(sizes[1..], v - 1, w - 1);
    }
  }

  lemma {:induction false} SumEven(sizes: seq<nat>, v: nat)
    requires v <= |sizes| && forall i :: 0 <= i < v ==> sizes[i] % 2 == 0
    ensures Given(sizes, v) % 2 == 0
    decreases |sizes|
  {
    if v > 0 {
      assert sizes[..v][1..] == sizes[1..][..v - 1];
      SumEven(sizes[1..], v - 1);
    }
  }

  lemma {:induction false} SumSnoc(sizes: seq<nat>, v: nat)
    requires v < |sizes|
    ensures Given(sizes, v + 1) == Given(sizes, v) + sizes[v]
    decreases |sizes|
  {
    assert sizes[..v + 1][1..] == sizes[1..][..v];
    if v > 0 {
      assert sizes[..v][1..] == sizes[1..][..v - 1];
      SumSnoc(sizes[1..], v - 1);
    }
  }

  predicate Distinct(s: seq<Cpu>) {
    forall i, j :: 0 <= i < j < |s| ==> s[i] != s[j]
  }

  lemma SlicesDisjoint(pool: seq<Cpu>, ns: seq<nat>, v: nat, w: nat, i: nat, j: nat)
    requires Sum(ns) <= |pool| && Distinct(pool) && v < |ns| && w < |ns| && i < ns[v] && j < ns[w]
    ensures |Pinned(pool, ns)[v]| == ns[v] && |Pinned(pool, ns)[w]| == ns[w]
    ensures (v, i) != (w, j) ==> Pinned(pool, ns)[v][i] != Pinned(pool, ns)[w][j]
  {
    hide Pinned, Sum;
    PinnedAt(pool, ns, v, i);
    PinnedAt(pool, ns, w, j);
    if v < w {
      SumGrows(ns, v, w);
    } else if w < v {
      SumGrows(ns, w, v);
    }
  }

  /** Every VM gets the number of CPUs asked for, or one if that is less than one, and no CPU is given twice. */
  lemma PinnedDisjoint(pool: seq<Cpu>, sizes: seq<int>, v: nat, w: nat, i: nat, j: nat)
    requires Sum(Needs(sizes)) <= |pool| && Distinct(pool)
    requires v < |sizes| && w < |sizes| && i < Need(sizes[v]) && j < Need(sizes[w])
    ensures var sets := Pinned(pool, Needs(sizes));
            && |sets[v]| == Need(sizes[v]) && |sets[w]| == Need(sizes[w])
            && ((v, i) != (w, j) ==> sets[v][i] != sets[w][j])
  {
    hide Pinned, Sum;
    SlicesDisjoint(pool, Needs(sizes), v, w, i, j);
  }

  /** Core c has the two CPUs first[c] and second[c]. */
  predicate OnCore(first: seq<Cpu>, second: seq<Cpu>, c: nat, x: Cpu)
    requires |first| == |second|
  {
    c < |first| && (x == first[c] || x == second[c])
  }

  /** In a pool of distinct CPUs, position p belongs to one core only. */
  lemma CoreOfPosition(first: seq<Cpu>, second: seq<Cpu>, p: nat, c: nat)
    requires |first| == |second| && Distinct(first + second) && p < 2 * |first|
    requires OnCore(first, second, c, Paired(first, second)[p])
    ensures p / 2 == |first| - 1 - c
  {
    hide Paired, Distinct;
    var t := p / 2;
    assert p == 2 * t || p == 2 * t + 1;
    PairedAt(first, second, t);
    OneCore(first, second, c, |first| - 1 - t, Paired(first, second)[p]);
  }

  lemma OneCore(first: seq<Cpu>, second: seq<Cpu>, c: nat, d: nat, x: Cpu)
    requires |first| == |second| && Distinct(first + second)
    requires OnCore(first, second, c, x) && OnCore(first, second, d, x)
    ensures c == d
  {
    var n, all := |first|, first + second;
    assert all[c] == first[c] && all[n + c] == second[c];
    assert all[d] == first[d] && all[n + d] == second[d];
  }

  /** Two CPU sets with a physical core in common. */
  ghost predicate Share(first: seq<Cpu>, second: seq<Cpu>, a: seq<Cpu>, b: seq<Cpu>)
    requires |first| == |second|
  {
    exists c: nat, x, y :: x in a && y in b && OnCore(first, second, c, x) && OnCore(first, second, c, y)
  }

  /** No two VMs share a physical core. */
  ghost predicate Separate(first: seq<Cpu>, second: seq<Cpu>, sets: seq<seq<Cpu>>)
    requires |first| == |second|
  {
    forall v, w :: 0 <= v < w < |sets| ==> !Share(first, second, sets[v], sets[w])
  }

  /** Which core the CPU at an offset from the end of the pool belongs to. */
  function CoreAt(o: nat): nat {
    o / 2
  }

  /** Offset o from the end of the pool is on that core and on no other. */
  lemma CoreOfOffset(first: seq<Cpu>, second: seq<Cpu>, o: nat, c: nat)
    requires |first| == |second| && Distinct(first + second) && o < 2 * |first|
    ensures var x := Paired(first, second)[2 * |first| - 1 - o]; OnCore(first, second, c, x) <==> c == CoreAt(o)
  {
    hide Paired, Distinct;
    var p := 2 * |first| - 1 - o;
    PairedAt(first, second, p / 2);
    assert p / 2 == |first| - 1 - o / 2;
    assert p == 2 * (p / 2) || p == 2 * (p / 2) + 1;
    if OnCore(first, second, c, Paired(first, second)[p]) {
      CoreOfPosition(first, second, p, c);
    }
  }

  /** The offset from the end of the pool at which a VM has a CPU. */
  lemma OffsetOf(pool: seq<Cpu>, ns: seq<nat>, v: nat, x: Cpu) returns (o: nat)
    requires Sum(ns) <= |pool| && v < |ns| && x in Pinned(pool, ns)[v]
    ensures Given(ns, v) <= o < Given(ns, v + 1) && o < |pool| && x == pool[|pool| - 1 - o]
  {
    hide *;
    PinnedSize(pool, ns, v);
    var i :| 0 <= i < |Pinned(pool, ns)[v]| && Pinned(pool, ns)[v][i] == x;
    PinnedAt(pool, ns, v, i);
    SumSnoc(ns, v);
    o := Given(ns, v) + i;
  }

  lemma {:induction false} PinnedSize(pool: seq<Cpu>, ns: seq<nat>, v: nat)
    requires Sum(ns) <= |pool| && v < |ns|
    ensures |Pinned(pool, ns)[v]| == ns[v]
    decreases |ns|
  {
    if v > 0 {
      PinnedSize(pool[..|pool| - ns[0]], ns[1..], v - 1);
    }
  }

  lemma HalvesApart(a: nat, s: nat, b: nat)
    requires a < s <= b && s % 2 == 0
    ensures CoreAt(a) != CoreAt(b)
  {
  }

  lemma ApartAt(first: seq<Cpu>, second: seq<Cpu>, ns: seq<nat>, v: nat, w: nat, x: Cpu, y: Cpu, c: nat)
    requires |first| == |second| && Distinct(first + second) && Sum(ns) <= 2 * |first| && v < w < |ns|
    requires Given(ns, v + 1) % 2 == 0
    requires var sets := Pinned(Paired(first, second), ns); x in sets[v] && y in sets[w]
    requires OnCore(first, second, c, x)
    ensures !OnCore(first, second, c, y)
  {
    hide *;
    var pool := Paired(first, second);
    var a := OffsetOf(pool, ns, v, x);
    var b := OffsetOf(pool, ns, w, y);
    SumSnoc(ns, v);
    SumGrows(ns, v, w);
    HalvesApart(a, Given(ns, v + 1), b);
    assert OnCore(first, second, c, x) <==> c == CoreAt(a) by {
      CoreOfOffset(first, second, a, c);
    }
    assert OnCore(first, second, c, y) <==> c == CoreAt(b) by {
      CoreOfOffset(first, second, b, c);
    }
  }

  /** Two VMs with an even number of CPUs given out up to the end of the first one share no core. */
  lemma EvenSeparates(first: seq<Cpu>, second: seq<Cpu>, ns: seq<nat>, v: nat, w: nat)
    requires |first| == |second| && Distinct(first + second) && Sum(ns) <= 2 * |first| && v < w < |ns|
    requires Given(ns, v + 1) % 2 == 0
    ensures var sets := Pinned(Paired(first, second), ns); !Share(first, second, sets[v], sets[w])
  {
    hide Pinned, Paired, Sum, OnCore, Distinct;
    var sets := Pinned(Paired(first, second), ns);
    forall c: nat, x, y | x in sets[v] && y in sets[w] && OnCore(first, second, c, x)
      ensures !OnCore(first, second, c, y)
    {
      ApartAt(first, second, ns, v, w, x, y, c);
    }
  }

  /** An odd number of CPUs given out before a VM puts its first CPU on the core of the CPU before it. */
  lemma OddShares(first: seq<Cpu>, second: seq<Cpu>, ns: seq<nat>, v: nat)
    requires |first| == |second| && Distinct(first + second) && Sum(ns) <= 2 * |first| && v + 1 < |ns|
    requires ns[v] > 0 && ns[v + 1] > 0 && Given(ns, v + 1) % 2 == 1
    ensures var sets := Pinned(Paired(first, second), ns); Share(first, second, sets[v], sets[v + 1])
  {
    hide Pinned, Paired, Sum, OnCore, Distinct;
    var pool := Paired(first, second);
    var sets := Pinned(pool, ns);
    var c := CoreAt(Given(ns, v + 1));
    var x, y := BoundaryCpus(first, second, ns, v);
    assert x in sets[v] && y in sets[v + 1];
    assert OnCore(first, second, c, x) && OnCore(first, second, c, y);
  }

  lemma BoundaryCpus(first: seq<Cpu>, second: seq<Cpu>, ns: seq<nat>, v: nat) returns (x: Cpu, y: Cpu)
    requires |first| == |second| && Distinct(first + second) && Sum(ns) <= 2 * |first| && v + 1 < |ns|
    requires ns[v] > 0 && ns[v + 1] > 0 && Given(ns, v + 1) % 2 == 1
    ensures var sets := Pinned(Paired(first, second), ns); var c := CoreAt(Given(ns, v + 1));
            && x in sets[v] && y in sets[v + 1]
            && OnCore(first, second, c, x) && OnCore(first, second, c, y)
  {
    hide *;
    var pool := Paired(first, second);
    var sets := Pinned(pool, ns);
    SumSnoc(ns, v);
    PinnedAt(pool, ns, v, ns[v] - 1);
    PinnedAt(pool, ns, v + 1, 0);
    var o := Given(ns, v + 1);
    x, y := sets[v][ns[v] - 1], sets[v + 1][0];
    assert x == pool[|pool| - o] && y == pool[|pool| - 1 - o];
    SameCore(o);
    CoreOfOffset(first, second, o - 1, CoreAt(o));
    CoreOfOffset(first, second, o, CoreAt(o));
  }

  lemma SameCore(o: nat)
    requires o % 2 == 1
    ensures CoreAt(o - 1) == CoreAt(o)
  {
  }

  lemma {:induction false} FirstOdd(ns: seq<nat>, n: nat) returns (v: nat)
    requires n <= |ns| && exists i :: 0 <= i < n && ns[i] % 2 == 1
    ensures v < n && ns[v] % 2 == 1 && forall i :: 0 <= i < v ==> ns[i] % 2 == 0
  {
    if exists i :: 0 <= i < n - 1 && ns[i] % 2 == 1 {
      v := FirstOdd(ns, n - 1);
    } else {
      v := n - 1;
    }
  }

  /** No two VMs share a physical core if and only if every VM before the last one gets an even number of CPUs. */
  lemma NoSharedCore(first: seq<Cpu>, second: seq<Cpu>, sizes: seq<int>)
    requires |first| == |second| && Distinct(first + second) && Sum(Needs(sizes)) <= 2 * |first|
    ensures Separate(first, second, Pinned(Paired(first, second), Needs(sizes)))
       <==> forall v :: 0 <= v < |sizes| - 1 ==> Need(sizes[v]) % 2 == 0
  {
    hide Pinned, Paired, Sum, Share, Distinct;
    var ns := Needs(sizes);
    if forall v :: 0 <= v < |sizes| - 1 ==> Need(sizes[v]) % 2 == 0 {
      forall v: nat, w: nat | v < w < |ns|
        ensures !Share(first, second, Pinned(Paired(first, second), ns)[v], Pinned(Paired(first, second), ns)[w])
      {
        SumEven(ns, v + 1);
        EvenSeparates(first, second, ns, v, w);
      }
    } else {
      var k :| 0 <= k < |sizes| - 1 && Need(sizes[k]) % 2 != 0;
      assert ns[k] % 2 == 1;
      var v := FirstOdd(ns, |ns| - 1);
      SumEven(ns, v);
      SumSnoc(ns, v);
      OddShares(first, second, ns, v);
    }
  }

  /** A VM of size 0 still takes one CPU, so sizes 0, 2 and 2 put the first two VMs on one core. */
  lemma ZeroSizeShares(first: seq<Cpu>, second: seq<Cpu>, sizes: seq<int>)
    requires |first| == |second| == 3 && Distinct(first + second) && sizes == [0, 2, 2]
    ensures Sum(Needs(sizes)) <= 6
    ensures !Separate(first, second, Pinned(Paired(first, second), Needs(sizes)))
  {
    hide Pinned, Paired, Separate;
    var ns := Needs(sizes);
    var a, b, c := ns[1..], ns[2..], ns[3..];
    assert a[1..] == b && b[1..] == c;
    assert Sum(c) == 0 && Sum(b) == 2 && Sum(a) == 4 && Sum(ns) == 5;
    assert Need(sizes[0]) % 2 == 1;
    NoSharedCore(first, second, sizes);
  }
}
