/** run_stats::merge: pointwise addition of the counters of equal seconds, in any order of the clients. */
module StatsMerge {
  import opened ByteStrings
  import opened RunStats

  // ----- what merge computes -----

  function MergeSecond(a: Second, b: Second): (c: Second)
    requires |a.counters.arbitrary| == |b.counters.arbitrary|
    ensures c.second == a.second && |c.counters.arbitrary| == |a.counters.arbitrary|
  {
    a.(counters := Add(a.counters, b.counters))
  }

  /** The inner loop: merge into the first entry of that second, or append. */
  function MergeOne(l: seq<Second>, x: Second, n: nat): (r: seq<Second>)
    requires Shaped(l, n) && |x.counters.arbitrary| == n
    ensures Shaped(r, n) && |l| <= |r| <= |l| + 1
  {
    if l == [] then [x]
    else if l[0].second == x.second then [MergeSecond(l[0], x)] + l[1..]
    else [l[0]] + MergeOne(l[1..], x, n)
  }

  function MergeList(l: seq<Second>, o: seq<Second>, n: nat): (r: seq<Second>)
    requires Shaped(l, n) && Shaped(o, n)
    ensures Shaped(r, n) && |r| >= |l|
    decreases |o|
  {
    if o == [] then l else MergeOne(MergeList(l, o[..|o| - 1], n), o[|o| - 1], n)
  }

  /** std::list::sort by second, as insertion into a sorted list. */
  function Insert(l: seq<Second>, x: Second): seq<Second> {
    if l == [] || x.second < l[0].second then [x] + l else [l[0]] + Insert(l[1..], x)
  }

  function Sort(l: seq<Second>): seq<Second>
    decreases |l|
  {
    if l == [] then [] else Insert(Sort(l[..|l| - 1]), l[|l| - 1])
  }

  function Merge(l: seq<Second>, o: seq<Second>, n: nat): (r: seq<Second>)
    requires Shaped(l, n) && Shaped(o, n)
  {
    var m := MergeList(l, o, n);
    if |m| > |l| then Sort(m) else m
  }

  // ----- a list as a map from seconds to counters -----

  function Lookup(l: seq<Second>, k: nat, n: nat): (c: Option<Counters>)
    requires Shaped(l, n)
    ensures Fits(c, n)
    ensures c.Some? <==> exists i :: 0 <= i < |l| && l[i].second == k
  {
    if l == [] then None else if l[0].second == k then Some(l[0].counters) else Lookup(l[1..], k, n)
  }

  predicate Fits(c: Option<Counters>, n: nat) {
    c.Some? ==> |c.value.arbitrary| == n
  }

  function PlusOption(a: Option<Counters>, b: Option<Counters>, n: nat): (c: Option<Counters>)
    requires Fits(a, n) && Fits(b, n)
    ensures Fits(c, n)
  {
    if a.None? then b else if b.None? then a else Some(Add(a.value, b.value))
  }

  predicate Distinct(l: seq<Second>) {
    forall i, j :: 0 <= i < j < |l| ==> l[i].second != l[j].second
  }

  lemma {:induction false} LookupMergeOne(l: seq<Second>, x: Second, k: nat, n: nat)
    requires Shaped(l, n) && |x.counters.arbitrary| == n
    ensures Lookup(MergeOne(l, x, n), k, n)
         == if k == x.second then PlusOption(Lookup(l, k, n), Some(x.counters), n) else Lookup(l, k, n)
  {
    hide Add;
    if l != [] {
      LookupMergeOne(l[1..], x, k, n);
      var r := MergeOne(l, x, n);
      assert r[1..] == if l[0].second == x.second then l[1..] else MergeOne(l[1..], x, n);
    }
  }

  lemma LookupSnoc(o: seq<Second>, x: Second, k: nat, n: nat)
    requires Shaped(o, n) && |x.counters.arbitrary| == n && Distinct(o + [x])
    ensures Shaped(o + [x], n)
    ensures Lookup(o + [x], k, n) == if k == x.second then Some(x.counters) else Lookup(o, k, n)
    ensures k == x.second ==> Lookup(o, k, n) == None
    decreases |o|
  {
    if o == [] {
      assert o + [x] == [x];
    } else {
      var t := o[1..];
      assert (o + [x])[1..] == t + [x];
      forall i, j | 0 <= i < j < |t + [x]| ensures (t + [x])[i].second != (t + [x])[j].second {
        assert (t + [x])[i] == (o + [x])[i + 1] && (t + [x])[j] == (o + [x])[j + 1];
      }
      LookupSnoc(t, x, k, n);
      assert (o + [x])[0].second != (o + [x])[|o|].second;
    }
  }

  /** Merging two lists adds them second by second. */
  lemma {:induction false} LookupMergeList(l: seq<Second>, o: seq<Second>, k: nat, n: nat)
    requires Shaped(l, n) && Shaped(o, n) && Distinct(o)
    ensures Lookup(MergeList(l, o, n), k, n) == PlusOption(Lookup(l, k, n), Lookup(o, k, n), n)
    decreases |o|
  {
    hide Add, Lookup, MergeOne;
    if o == [] {
      NoLookup(o, k, n);
    } else {
      var o', x := o[..|o| - 1], o[|o| - 1];
      assert o' + [x] == o;
      LookupMergeList(l, o', k, n);
      LookupMergeOne(MergeList(l, o', n), x, k, n);
      LookupSnoc(o', x, k, n);
    }
  }

  lemma NoLookup(l: seq<Second>, k: nat, n: nat)
    requires |l| == 0
    ensures Lookup(l, k, n) == None
  {
  }

  // ----- the order of the seconds -----

  predicate SameSeconds(a: seq<Second>, b: seq<Second>) {
    |a| == |b| && forall i :: 0 <= i < |a| ==> a[i].second == b[i].second
  }

  /** Either a second is merged in place, or a new one is appended. */
  lemma {:induction false} MergeOneSeconds(l: seq<Second>, x: Second, n: nat)
    requires Shaped(l, n) && |x.counters.arbitrary| == n
    ensures |MergeOne(l, x, n)| == |l| ==> SameSeconds(MergeOne(l, x, n), l)
    ensures |MergeOne(l, x, n)| > |l| ==>
              MergeOne(l, x, n) == l + [x] && forall i :: 0 <= i < |l| ==> l[i].second != x.second
  {
    hide Add;
    if l != [] && l[0].second != x.second {
      hide MergeOne;
      MergeOnePasses(l, x, n);
      MergeOneSeconds(l[1..], x, n);
      if |MergeOne(l, x, n)| > |l| {
        assert MergeOne(l, x, n) == [l[0]] + (l[1..] + [x]);
      }
    }
  }

  lemma MergeOnePasses(l: seq<Second>, x: Second, n: nat)
    requires Shaped(l, n) && |x.counters.arbitrary| == n && l != [] && l[0].second != x.second
    ensures MergeOne(l, x, n) == [l[0]] + MergeOne(l[1..], x, n)
  {
  }

  lemma {:induction false} MergeListSeconds(l: seq<Second>, o: seq<Second>, n: nat)
    requires Shaped(l, n) && Shaped(o, n) && Distinct(l)
    ensures Distinct(MergeList(l, o, n))
    ensures |MergeList(l, o, n)| == |l| ==> SameSeconds(MergeList(l, o, n), l)
    decreases |o|
  {
    hide MergeOne;
    if o != [] {
      var m := MergeList(l, o[..|o| - 1], n);
      MergeListSeconds(l, o[..|o| - 1], n);
      MergeOneSeconds(m, o[|o| - 1], n);
    }
  }

  lemma {:induction false} InsertKeeps(l: seq<Second>, x: Second, n: nat)
    requires Shaped(l, n) && |x.counters.arbitrary| == n
    requires Increasing(l) && forall i :: 0 <= i < |l| ==> l[i].second != x.second
    ensures Increasing(Insert(l, x)) && Shaped(Insert(l, x), n)
    ensures forall y :: y in Insert(l, x) <==> y == x || y in l
  {
    var r := Insert(l, x);
    if l == [] || x.second < l[0].second {
      assert r[1..] == l;
    } else {
      InsertKeeps(l[1..], x, n);
      var t := Insert(l[1..], x);
      assert r == [l[0]] + t && r[1..] == t;
      forall i | 0 <= i < |t| ensures l[0].second < t[i].second {
        assert t[i] in t;
      }
    }
  }

  lemma {:induction false} LookupInsert(l: seq<Second>, x: Second, k: nat, n: nat)
    requires Shaped(l, n) && Shaped(Insert(l, x), n) && forall i :: 0 <= i < |l| ==> l[i].second != x.second
    ensures Lookup(Insert(l, x), k, n) == if k == x.second then Some(x.counters) else Lookup(l, k, n)
  {
    var r := Insert(l, x);
    if l == [] || x.second < l[0].second {
      assert r[1..] == l;
    } else {
      assert r == [l[0]] + Insert(l[1..], x) && r[1..] == Insert(l[1..], x);
      LookupInsert(l[1..], x, k, n);
    }
  }

  /** Sorting distinct seconds puts them in order and keeps the map. */
  lemma {:induction false} SortKeeps(l: seq<Second>, n: nat)
    requires Shaped(l, n) && Distinct(l)
    ensures Increasing(Sort(l)) && Shaped(Sort(l), n)
    ensures forall k {:trigger Lookup(Sort(l), k, n)} :: Lookup(Sort(l), k, n) == Lookup(l, k, n)
    ensures forall y :: y in Sort(l) <==> y in l
    decreases |l|
  {
    hide Insert, Lookup;
    if l == [] {
    } else {
      var l', x := l[..|l| - 1], l[|l| - 1];
      assert l' + [x] == l;
      SortKeeps(l', n);
      forall i | 0 <= i < |Sort(l')| ensures Sort(l')[i].second != x.second {
        assert Sort(l')[i] in l';
      }
      InsertKeeps(Sort(l'), x, n);
      forall k ensures Lookup(Sort(l), k, n) == Lookup(l, k, n) {
        LookupInsert(Sort(l'), x, k, n);
        LookupSnoc(l', x, k, n);
      }
    }
  }

  /** merge is pointwise addition keyed by second, and keeps the seconds in strictly increasing order. */
  lemma MergeIsPointwise(l: seq<Second>, o: seq<Second>, n: nat)
    requires Shaped(l, n) && Shaped(o, n) && Increasing(l) && Increasing(o)
    ensures Increasing(Merge(l, o, n)) && Shaped(Merge(l, o, n), n)
    ensures forall k :: Lookup(Merge(l, o, n), k, n) == PlusOption(Lookup(l, k, n), Lookup(o, k, n), n)
  {
    hide Sort, MergeList, Lookup, PlusOption;
    var m := MergeList(l, o, n);
    MergeListSeconds(l, o, n);
    SortKeeps(m, n);
    forall k ensures Lookup(Merge(l, o, n), k, n) == PlusOption(Lookup(l, k, n), Lookup(o, k, n), n) {
      LookupMergeList(l, o, k, n);
    }
  }

  // ----- sums -----

  lemma {:induction false} SumCons(x: Second, l: seq<Second>, n: nat)
    requires Shaped(l, n) && |x.counters.arbitrary| == n
    ensures Shaped([x] + l, n) && Sum([x] + l, n) == Add(x.counters, Sum(l, n))
    decreases |l|
  {
    hide Sum, Add;
    if l == [] {
      SumSnoc(l, x, n);
      SumEmpty(l, n);
      AddZero(x.counters);
      assert [x] + l == l + [x];
    } else {
      var l', y := l[..|l| - 1], l[|l| - 1];
      assert l == l' + [y] && [x] + l == ([x] + l') + [y];
      SumCons(x, l', n);
      SumSnoc(l', y, n);
      SumSnoc([x] + l', y, n);
      AddAssociates(x.counters, Sum(l', n), y.counters);
    }
  }

  lemma SumEmpty(l: seq<Second>, n: nat)
    requires |l| == 0
    ensures Shaped(l, n) && Sum(l, n) == Zero(n)
  {
  }

  lemma AddSwap(a: Counters, b: Counters, c: Counters)
    requires |a.arbitrary| == |b.arbitrary| == |c.arbitrary|
    ensures Add(Add(a, b), c) == Add(Add(a, c), b)
  {
    hide Add;
    AddAssociates(a, b, c);
    AddAssociates(a, c, b);
    AddCommutes(b, c);
  }

  lemma {:induction false} SumMergeOne(l: seq<Second>, x: Second, n: nat)
    requires Shaped(l, n) && |x.counters.arbitrary| == n
    ensures Sum(MergeOne(l, x, n), n) == Add(Sum(l, n), x.counters)
  {
    hide Sum, Add;
    if l == [] {
      SumSnoc(l, x, n);
      assert l + [x] == [x];
    } else {
      var t := l[1..];
      assert l == [l[0]] + t;
      SumCons(l[0], t, n);
      if l[0].second == x.second {
        SumCons(MergeSecond(l[0], x), t, n);
        AddSwap(l[0].counters, x.counters, Sum(t, n));
      } else {
        SumMergeOne(t, x, n);
        SumCons(l[0], MergeOne(t, x, n), n);
        AddAssociates(l[0].counters, Sum(t, n), x.counters);
      }
    }
  }

  lemma {:induction false} SumMergeList(l: seq<Second>, o: seq<Second>, n: nat)
    requires Shaped(l, n) && Shaped(o, n)
    ensures Sum(MergeList(l, o, n), n) == Add(Sum(l, n), Sum(o, n))
    decreases |o|
  {
    hide Sum, Add, MergeOne;
    if o == [] {
      SumEmpty(o, n);
      AddZero(Sum(l, n));
    } else {
      var o', x := o[..|o| - 1], o[|o| - 1];
      assert o' + [x] == o;
      SumMergeList(l, o', n);
      SumMergeOne(MergeList(l, o', n), x, n);
      SumSnoc(o', x, n);
      AddAssociates(Sum(l, n), Sum(o', n), x.counters);
    }
  }

  lemma {:induction false} SumInsert(l: seq<Second>, x: Second, n: nat)
    requires Shaped(l, n) && |x.counters.arbitrary| == n
    ensures Shaped(Insert(l, x), n) && Sum(Insert(l, x), n) == Add(Sum(l, n), x.counters)
  {
    hide Sum, Add;
    if l == [] || x.second < l[0].second {
      SumCons(x, l, n);
      AddCommutes(x.counters, Sum(l, n));
    } else {
      var t := l[1..];
      assert l == [l[0]] + t;
      SumInsert(t, x, n);
      SumCons(l[0], t, n);
      SumCons(l[0], Insert(t, x), n);
      AddAssociates(l[0].counters, Sum(t, n), x.counters);
    }
  }

  lemma {:induction false} SumSort(l: seq<Second>, n: nat)
    requires Shaped(l, n)
    ensures Shaped(Sort(l), n) && Sum(Sort(l), n) == Sum(l, n)
    decreases |l|
  {
    hide Sum, Add, Insert;
    if l != [] {
      var l', x := l[..|l| - 1], l[|l| - 1];
      assert l' + [x] == l;
      SumSort(l', n);
      SumInsert(Sort(l'), x, n);
      SumSnoc(l', x, n);
    }
  }

  /** merge loses and invents nothing. */
  lemma SumMerge(l: seq<Second>, o: seq<Second>, n: nat)
    requires Shaped(l, n) && Shaped(o, n)
    ensures Shaped(Merge(l, o, n), n) && Sum(Merge(l, o, n), n) == Add(Sum(l, n), Sum(o, n))
  {
    hide Sum, Add, Sort, MergeList;
    SumMergeList(l, o, n);
    SumSort(MergeList(l, o, n), n);
  }

  // ----- any order of the clients -----

  /** A strictly increasing list is determined by its map. */
  lemma {:induction false} SameMap(a: seq<Second>, b: seq<Second>, n: nat)
    requires Shaped(a, n) && Shaped(b, n) && Increasing(a) && Increasing(b)
    requires forall k :: Lookup(a, k, n) == Lookup(b, k, n)
    ensures a == b
  {
    if a == [] {
      assert b != [] ==> Lookup(b, b[0].second, n).Some? && Lookup(a, b[0].second, n).None?;
    } else {
      assert Lookup(a, a[0].second, n) == Some(a[0].counters);
      SmallestFirst(a, b, n);
      SmallestFirst(b, a, n);
      assert a[0] == b[0];
      forall k ensures Lookup(a[1..], k, n) == Lookup(b[1..], k, n) {
        TailLookup(a, k, n);
        TailLookup(b, k, n);
        assert Lookup(a, k, n) == Lookup(b, k, n);
      }
      SameMap(a[1..], b[1..], n);
      assert a == [a[0]] + a[1..] && b == [b[0]] + b[1..];
    }
  }

  lemma SmallestFirst(a: seq<Second>, b: seq<Second>, n: nat)
    requires Shaped(a, n) && Shaped(b, n) && Increasing(b) && a != []
    requires Lookup(b, a[0].second, n).Some?
    ensures b != [] && b[0].second <= a[0].second
  {
  }

  lemma TailLookup(l: seq<Second>, k: nat, n: nat)
    requires Shaped(l, n) && Increasing(l) && l != []
    ensures Lookup(l[1..], k, n) == if k == l[0].second then None else Lookup(l, k, n)
  {
  }

  /** One client: its replies, then set_end_time. */
  function Client(us: seq<Update>, n: nat): (l: seq<Second>)
    requires AllValid(us, n)
    ensures Shaped(l, n) && Increasing(l)
  {
    RunConserves(us, n);
    Finish(Run(n, us))
  }

  predicate Clients(runs: seq<seq<Update>>, n: nat) {
    forall i :: 0 <= i < |runs| ==> AllValid(runs[i], n)
  }

  /** client_group::merge_run_stats over all groups, into fresh statistics. */
  function MergeAll(runs: seq<seq<Update>>, n: nat): (l: seq<Second>)
    requires Clients(runs, n)
    ensures Shaped(l, n) && Increasing(l)
    decreases |runs|
  {
    if runs == [] then []
    else
      var l := MergeAll(runs[..|runs| - 1], n);
      var o := Client(runs[|runs| - 1], n);
      MergeIsPointwise(l, o, n);
      Merge(l, o, n)
  }

  /** The map of a merge: for every second, the sum over the clients that have it. */
  function Together(runs: seq<seq<Update>>, k: nat, n: nat): (c: Option<Counters>)
    requires Clients(runs, n)
    ensures Fits(c, n)
    decreases |runs|
  {
    if runs == [] then None
    else PlusOption(Together(runs[..|runs| - 1], k, n), Lookup(Client(runs[|runs| - 1], n), k, n), n)
  }

  lemma {:induction false} LookupMergeAll(runs: seq<seq<Update>>, k: nat, n: nat)
    requires Clients(runs, n)
    ensures Lookup(MergeAll(runs, n), k, n) == Together(runs, k, n)
    decreases |runs|
  {
    hide Lookup, Client, Merge, PlusOption;
    if runs == [] {
      NoLookup(MergeAll(runs, n), k, n);
    } else {
      LookupMergeAll(runs[..|runs| - 1], k, n);
      MergeIsPointwise(MergeAll(runs[..|runs| - 1], n), Client(runs[|runs| - 1], n), n);
    }
  }

  lemma PlusOptionSwap(a: Option<Counters>, b: Option<Counters>, c: Option<Counters>, n: nat)
    requires Fits(a, n) && Fits(b, n) && Fits(c, n)
    ensures PlusOption(PlusOption(a, b, n), c, n) == PlusOption(PlusOption(a, c, n), b, n)
  {
    hide Add;
    if b.Some? && c.Some? {
      AddCommutes(b.value, c.value);
      if a.Some? {
        AddSwap(a.value, b.value, c.value);
      }
    }
  }

  function Without<T>(s: seq<T>, i: nat): (r: seq<T>)
    requires i < |s|
    ensures |r| == |s| - 1
  {
    s[..i] + s[i + 1..]
  }

  /** Any client may be merged last. */
  lemma {:induction false} TogetherWithout(runs: seq<seq<Update>>, i: nat, k: nat, n: nat)
    requires Clients(runs, n) && i < |runs|
    ensures Clients(Without(runs, i), n)
    ensures Together(runs, k, n) == PlusOption(Together(Without(runs, i), k, n), Lookup(Client(runs[i], n), k, n), n)
    decreases |runs|
  {
    hide Lookup, Client, PlusOption;
    var m := |runs| - 1;
    if i == m {
      assert Without(runs, i) == runs[..m];
    } else {
      var w := Without(runs[..m], i);
      TogetherWithout(runs[..m], i, k, n);
      assert Without(runs, i) == w + [runs[m]];
      assert (w + [runs[m]])[..m - 1] == w;
      PlusOptionSwap(Together(w, k, n), Lookup(Client(runs[i], n), k, n), Lookup(Client(runs[m], n), k, n), n);
    }
  }

  lemma WithoutMultiset<T>(s: seq<T>, i: nat)
    requires i < |s|
    ensures multiset(Without(s, i)) == multiset(s) - multiset{s[i]}
  {
    assert s == s[..i] + [s[i]] + s[i + 1..];
  }

  lemma {:induction false} TogetherAnyOrder(a: seq<seq<Update>>, b: seq<seq<Update>>, k: nat, n: nat)
    requires Clients(a, n) && Clients(b, n) && multiset(a) == multiset(b)
    ensures Together(a, k, n) == Together(b, k, n)
    decreases |a|
  {
    hide Lookup, Client, PlusOption, Without;
    assert |a| == |multiset(a)| == |multiset(b)| == |b|;
    if a == [] {
      assert b == [];
    } else {
      var m := |a| - 1;
      assert a[m] in multiset(a);
      assert a[m] in b;
      var i :| 0 <= i < |b| && b[i] == a[m];
      TogetherWithout(a, m, k, n);
      TogetherWithout(b, i, k, n);
      WithoutMultiset(a, m);
      WithoutMultiset(b, i);
      TogetherAnyOrder(Without(a, m), Without(b, i), k, n);
    }
  }

  /** The merged statistics do not depend on the order in which clients are merged. */
  lemma MergeAnyOrder(a: seq<seq<Update>>, b: seq<seq<Update>>, n: nat)
    requires Clients(a, n) && Clients(b, n) && multiset(a) == multiset(b)
    ensures MergeAll(a, n) == MergeAll(b, n)
  {
    hide Lookup, MergeAll, Together;
    forall k ensures Lookup(MergeAll(a, n), k, n) == Lookup(MergeAll(b, n), k, n) {
      LookupMergeAll(a, k, n);
      LookupMergeAll(b, k, n);
      TogetherAnyOrder(a, b, k, n);
    }
    SameMap(MergeAll(a, n), MergeAll(b, n), n);
  }

  // ----- the summary -----

  function Flat(runs: seq<seq<Update>>): seq<Update>
    decreases |runs|
  {
    if runs == [] then [] else Flat(runs[..|runs| - 1]) + runs[|runs| - 1]
  }

  lemma {:induction false} TallyConcat(a: seq<Update>, b: seq<Update>, n: nat)
    requires AllValid(a, n) && AllValid(b, n)
    ensures AllValid(a + b, n) && Tally(a + b, n) == Add(Tally(a, n), Tally(b, n))
    decreases |b|
  {
    hide Add, Contribution, Tally;
    if b == [] {
      NoTally(b, n);
      AddZero(Tally(a, n));
      assert a + b == a;
    } else {
      var b', u := b[..|b| - 1], b[|b| - 1];
      assert b == b' + [u] && a + b == (a + b') + [u];
      TallyConcat(a, b', n);
      TallySnoc(b', u, n);
      TallySnoc(a + b', u, n);
      AddAssociates(Tally(a, n), Tally(b', n), Contribution(u, n));
    }
  }

  /** The merged statistics are exactly the replies of all clients. */
  lemma {:induction false} MergedTally(runs: seq<seq<Update>>, n: nat)
    requires Clients(runs, n)
    ensures AllValid(Flat(runs), n) && Sum(MergeAll(runs, n), n) == Tally(Flat(runs), n)
    decreases |runs|
  {
    hide Sum, Add, Tally, Merge, AllValid, Run, Finish;
    if runs == [] {
      assert AllValid(Flat(runs), n) by { NoTally(Flat(runs), n); }
      NoTally(Flat(runs), n);
      SumEmpty(MergeAll(runs, n), n);
    } else {
      var before, us := runs[..|runs| - 1], runs[|runs| - 1];
      MergedTally(before, n);
      RunConserves(us, n);
      SumMerge(MergeAll(before, n), Client(us, n), n);
      TallyConcat(Flat(before), us, n);
    }
  }

  /** The integer part of summarize. */
  datatype Summary = Summary(ops: nat, bytes: nat, latency: nat)

  function Summarize(l: seq<Second>, n: nat): Summary
    requires Shaped(l, n)
  {
    var c := Sum(l, n);
    var ar := ArSum(c.arbitrary);
    Summary(c.sets.ops + c.gets.ops + c.waits.ops + ar.ops, c.sets.bytes + c.gets.bytes + ar.bytes,
            c.sets.latency + c.gets.latency + c.waits.latency + ar.latency)
  }

  /** After merging any clients in any order, the summary counts every reply, its bytes and its latency exactly once. */
  lemma SummaryCountsEveryReply(runs: seq<seq<Update>>, n: nat)
    requires Clients(runs, n)
    ensures Summarize(MergeAll(runs, n), n) == Summary(|Flat(runs)|, BytesOf(Flat(runs)), LatencyOf(Flat(runs)))
  {
    hide MergeAll, Flat, Sum, Tally, ArSum, AllValid, BytesOf, LatencyOf;
    MergedTally(runs, n);
    TallyCounts(Flat(runs), n);
    WaitsCarryNoBytes(Flat(runs), n);
  }
}
