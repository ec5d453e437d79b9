/** Per-second statistics of one client: every update counted, in its own second. */
module RunStats {
  /** one_sec_cmd_stats without its histogram. */
  datatype Cmd = Cmd(bytes: nat, ops: nat, hits: nat, misses: nat, moved: nat, ask: nat, latency: nat)

  const ZERO := Cmd(0, 0, 0, 0, 0, 0, 0)

  function Plus(a: Cmd, b: Cmd): Cmd {
    Cmd(a.bytes + b.bytes, a.ops + b.ops, a.hits + b.hits, a.misses + b.misses, a.moved + b.moved, a.ask + b.ask,
        a.latency + b.latency)
  }

  /** The counters of one_second_stats: set, get, wait and the n arbitrary commands. */
  datatype Counters = Counters(sets: Cmd, gets: Cmd, waits: Cmd, arbitrary: seq<Cmd>)

  function Zero(n: nat): (c: Counters)
    ensures |c.arbitrary| == n
  {
    Counters(ZERO, ZERO, ZERO, seq(n, i => ZERO))
  }

  function PlusAll(a: seq<Cmd>, b: seq<Cmd>): (c: seq<Cmd>)
    requires |a| == |b|
    ensures |c| == |a|
  {
    seq(|a|, i requires 0 <= i < |a| => Plus(a[i], b[i]))
  }

  function Add(a: Counters, b: Counters): (c: Counters)
    requires |a.arbitrary| == |b.arbitrary|
    ensures |c.arbitrary| == |a.arbitrary|
  {
    Counters(Plus(a.sets, b.sets), Plus(a.gets, b.gets), Plus(a.waits, b.waits), PlusAll(a.arbitrary, b.arbitrary))
  }

  lemma AddCommutes(a: Counters, b: Counters)
    requires |a.arbitrary| == |b.arbitrary|
    ensures Add(a, b) == Add(b, a)
  {
    assert PlusAll(a.arbitrary, b.arbitrary) == PlusAll(b.arbitrary, a.arbitrary);
  }

  lemma AddAssociates(a: Counters, b: Counters, c: Counters)
    requires |a.arbitrary| == |b.arbitrary| == |c.arbitrary|
    ensures Add(Add(a, b), c) == Add(a, Add(b, c))
  {
    var x, y, z := a.arbitrary, b.arbitrary, c.arbitrary;
    assert PlusAll(PlusAll(x, y), z) == PlusAll(x, PlusAll(y, z));
  }

  lemma AddZero(a: Counters)
    ensures Add(Zero(|a.arbitrary|), a) == a && Add(a, Zero(|a.arbitrary|)) == a
  {
    assert PlusAll(Zero(|a.arbitrary|).arbitrary, a.arbitrary) == a.arbitrary;
    assert PlusAll(a.arbitrary, Zero(|a.arbitrary|).arbitrary) == a.arbitrary;
  }

  // ----- updates -----

  datatype Kind =
    | Set | MovedSet | AskSet
    | Get(hits: nat, misses: nat) | MovedGet | AskGet
    | Wait | Arbitrary(index: nat)

  /** One handled reply: microseconds since the start time, bytes, latency. */
  datatype Update = Update(usec: nat, kind: Kind, bytes: nat, latency: nat)

  /** Updates a run with n arbitrary commands can make: the index is in range, WAIT reports no bytes. */
  predicate Valid(u: Update, n: nat) {
    && (u.kind.Arbitrary? ==> u.kind.index < n)
    && (u.kind.Wait? ==> u.bytes == 0)
  }

  /** What one update adds to the counters of its command. */
  function One(u: Update): Cmd {
    match u.kind
    case Get(hits, misses) => Cmd(u.bytes, 1, hits, misses, 0, 0, u.latency)
    case MovedSet => Cmd(u.bytes, 1, 0, 0, 1, 0, u.latency)
    case MovedGet => Cmd(u.bytes, 1, 0, 0, 1, 0, u.latency)
    case AskSet => Cmd(u.bytes, 1, 0, 0, 0, 1, u.latency)
    case AskGet => Cmd(u.bytes, 1, 0, 0, 0, 1, u.latency)
    case _ => Cmd(u.bytes, 1, 0, 0, 0, 0, u.latency)
  }

  /** The same as a contribution to a whole second. */
  function Contribution(u: Update, n: nat): (c: Counters)
    requires Valid(u, n)
    ensures |c.arbitrary| == n
  {
    match u.kind
    case Set => Zero(n).(sets := One(u))
    case MovedSet => Zero(n).(sets := One(u))
    case AskSet => Zero(n).(sets := One(u))
    case Get(_, _) => Zero(n).(gets := One(u))
    case MovedGet => Zero(n).(gets := One(u))
    case AskGet => Zero(n).(gets := One(u))
    case Wait => Zero(n).(waits := One(u))
    case Arbitrary(i) => Zero(n).(arbitrary := Zero(n).arbitrary[i := One(u)])
  }

  /** The counters of the command an update belongs to. */
  function Bump(c: Counters, u: Update): (d: Counters)
    requires Valid(u, |c.arbitrary|)
    ensures |d.arbitrary| == |c.arbitrary|
  {
    match u.kind
    case Set => c.(sets := Plus(c.sets, One(u)))
    case MovedSet => c.(sets := Plus(c.sets, One(u)))
    case AskSet => c.(sets := Plus(c.sets, One(u)))
    case Get(_, _) => c.(gets := Plus(c.gets, One(u)))
    case MovedGet => c.(gets := Plus(c.gets, One(u)))
    case AskGet => c.(gets := Plus(c.gets, One(u)))
    case Wait => c.(waits := Plus(c.waits, One(u)))
    case Arbitrary(i) => c.(arbitrary := c.arbitrary[i := Plus(c.arbitrary[i], One(u))])
  }

  lemma BumpAdds(c: Counters, u: Update)
    requires Valid(u, |c.arbitrary|)
    ensures Bump(c, u) == Add(c, Contribution(u, |c.arbitrary|))
  {
    assert Bump(c, u).arbitrary == PlusAll(c.arbitrary, Contribution(u, |c.arbitrary|).arbitrary);
  }

  // ----- one client -----

  datatype Second = Second(second: nat, counters: Counters)

  datatype Totals = Totals(bytes: nat, ops: nat, latency: nat)

  /** m_stats, m_cur_stats and the running counters of m_totals. */
  datatype State = State(stats: seq<Second>, cur: Second, totals: Totals)

  function Initial(n: nat): State {
    State([], Second(0, Zero(n)), Totals(0, 0, 0))
  }

  function Roll(s: State, usec: nat): State {
    var sec := usec / 1000000;
    if sec > s.cur.second then
      s.(stats := s.stats + [s.cur], cur := Second(sec, Zero(|s.cur.counters.arbitrary|)))
    else s
  }

  function Step(s: State, u: Update): State
    requires Valid(u, |s.cur.counters.arbitrary|)
  {
    var r := Roll(s, u.usec);
    r.(cur := r.cur.(counters := Bump(r.cur.counters, u)),
       totals := Totals(s.totals.bytes + u.bytes, s.totals.ops + 1, s.totals.latency + u.latency))
  }

  predicate AllValid(us: seq<Update>, n: nat) {
    forall i :: 0 <= i < |us| ==> Valid(us[i], n)
  }

  /** Every reply handled by a client, in order. */
  function Run(n: nat, us: seq<Update>): (s: State)
    requires AllValid(us, n)
    ensures |s.cur.counters.arbitrary| == n
    decreases |us|
  {
    if us == [] then Initial(n) else Step(Run(n, us[..|us| - 1]), us[|us| - 1])
  }

  /** set_end_time. */
  function Finish(s: State): seq<Second> {
    s.stats + [s.cur]
  }

  // ----- sums -----

  predicate Shaped(l: seq<Second>, n: nat) {
    forall i :: 0 <= i < |l| ==> |l[i].counters.arbitrary| == n
  }

  predicate Increasing(l: seq<Second>) {
    forall i, j :: 0 <= i < j < |l| ==> l[i].second < l[j].second
  }

  /** All seconds of a list together, as summarize adds them up. */
  function Sum(l: seq<Second>, n: nat): (c: Counters)
    requires Shaped(l, n)
    ensures |c.arbitrary| == n
    decreases |l|
  {
    if l == [] then Zero(n) else Add(Sum(l[..|l| - 1], n), l[|l| - 1].counters)
  }

  lemma SumSnoc(l: seq<Second>, x: Second, n: nat)
    requires Shaped(l, n) && |x.counters.arbitrary| == n
    ensures Shaped(l + [x], n) && Sum(l + [x], n) == Add(Sum(l, n), x.counters)
  {
    assert (l + [x])[..|l|] == l;
  }

  /** The independent account: the contributions of all updates, whatever second they fall in. */
  function Tally(us: seq<Update>, n: nat): (c: Counters)
    requires AllValid(us, n)
    ensures |c.arbitrary| == n
    decreases |us|
  {
    if us == [] then Zero(n) else Add(Tally(us[..|us| - 1], n), Contribution(us[|us| - 1], n))
  }

  /** All commands of a second together. */
  function Overall(c: Counters): Cmd {
    Plus(Plus(Plus(c.sets, c.gets), c.waits), ArSum(c.arbitrary))
  }

  function ArSum(cs: seq<Cmd>): (c: Cmd)
    ensures |cs| == 0 ==> c == ZERO
    decreases |cs|
  {
    if |cs| == 0 then ZERO else Plus(ArSum(cs[..|cs| - 1]), cs[|cs| - 1])
  }

  lemma ArSumSnoc(cs: seq<Cmd>, c: Cmd)
    ensures ArSum(cs + [c]) == Plus(ArSum(cs), c)
  {
    assert (cs + [c])[..|cs|] == cs;
  }

  lemma PlusLaws(a: Cmd, b: Cmd, c: Cmd, d: Cmd)
    ensures Plus(Plus(a, b), Plus(c, d)) == Plus(Plus(a, c), Plus(b, d))
    ensures Plus(ZERO, a) == a && Plus(a, ZERO) == a
  {
  }

  lemma PlusAllSnoc(a: seq<Cmd>, b: seq<Cmd>, x: Cmd, y: Cmd)
    requires |a| == |b|
    ensures PlusAll(a + [x], b + [y]) == PlusAll(a, b) + [Plus(x, y)]
  {
  }

  lemma {:induction false} ArSumPlus(a: seq<Cmd>, b: seq<Cmd>)
    requires |a| == |b|
    ensures ArSum(PlusAll(a, b)) == Plus(ArSum(a), ArSum(b))
    decreases |a|
  {
    hide ArSum, Plus, PlusAll;
    if a == [] {
      PlusLaws(ZERO, ZERO, ZERO, ZERO);
    } else {
      var a', b', x, y := a[..|a| - 1], b[..|b| - 1], a[|a| - 1], b[|b| - 1];
      assert a == a' + [x] && b == b' + [y];
      PlusAllSnoc(a', b', x, y);
      ArSumSnoc(a', x);
      ArSumSnoc(b', y);
      ArSumSnoc(PlusAll(a', b'), Plus(x, y));
      ArSumPlus(a', b');
      PlusLaws(ArSum(a'), ArSum(b'), x, y);
    }
  }

  lemma {:induction false} ArSumZero(n: nat)
    ensures ArSum(Zero(n).arbitrary) == ZERO
  {
    hide ArSum, Plus;
    if n > 0 {
      PlusLaws(ZERO, ZERO, ZERO, ZERO);
      assert Zero(n).arbitrary == Zero(n - 1).arbitrary + [ZERO];
      ArSumSnoc(Zero(n - 1).arbitrary, ZERO);
      ArSumZero(n - 1);
    }
  }

  lemma {:induction false} ArSumOne(n: nat, i: nat, c: Cmd)
    requires i < n
    ensures ArSum(Zero(n).arbitrary[i := c]) == c
    decreases n
  {
    hide ArSum, Plus;
    var l, z := Zero(n).arbitrary[i := c], Zero(n - 1).arbitrary;
    PlusLaws(c, c, c, c);
    if i == n - 1 {
      assert l == z + [c];
      ArSumSnoc(z, c);
      ArSumZero(n - 1);
    } else {
      assert l == z[i := c] + [ZERO];
      ArSumSnoc(z[i := c], ZERO);
      ArSumOne(n - 1, i, c);
    }
  }

  lemma OverallAdds(a: Counters, b: Counters)
    requires |a.arbitrary| == |b.arbitrary|
    ensures Overall(Add(a, b)) == Plus(Overall(a), Overall(b))
  {
    hide ArSum;
    ArSumPlus(a.arbitrary, b.arbitrary);
  }

  lemma OverallOne(u: Update, n: nat)
    requires Valid(u, n)
    ensures Overall(Contribution(u, n)) == One(u)
  {
    hide ArSum, One, Plus, Zero;
    var c := One(u);
    PlusLaws(c, c, c, c);
    PlusLaws(ZERO, c, c, c);
    ArSumZero(n);
    ZeroFields(n);
    if u.kind.Arbitrary? {
      ArSumOne(n, u.kind.index, c);
    }
  }

  lemma ZeroFields(n: nat)
    ensures Zero(n).sets == Zero(n).gets == Zero(n).waits == ZERO
  {
  }

  // ----- conservation over a run -----

  function BytesOf(us: seq<Update>): nat
    decreases |us|
  {
    if us == [] then 0 else BytesOf(us[..|us| - 1]) + us[|us| - 1].bytes
  }

  function LatencyOf(us: seq<Update>): nat
    decreases |us|
  {
    if us == [] then 0 else LatencyOf(us[..|us| - 1]) + us[|us| - 1].latency
  }

  lemma {:induction false} TallyCounts(us: seq<Update>, n: nat)
    requires AllValid(us, n)
    ensures Overall(Tally(us, n)).ops == |us| && Overall(Tally(us, n)).bytes == BytesOf(us)
    ensures Overall(Tally(us, n)).latency == LatencyOf(us)
    decreases |us|
  {
    hide Overall, Contribution, Add;
    if us == [] {
      NothingCounted(n);
    } else {
      var rest, u := us[..|us| - 1], us[|us| - 1];
      TallyCounts(rest, n);
      OverallAdds(Tally(rest, n), Contribution(u, n));
      OverallOne(u, n);
    }
  }

  /** WAIT replies carry no bytes, so leaving them out of the byte total loses nothing. */
  lemma {:induction false} WaitsCarryNoBytes(us: seq<Update>, n: nat)
    requires AllValid(us, n)
    ensures Tally(us, n).waits.bytes == 0
    decreases |us|
  {
    hide PlusAll, Contribution;
    if us != [] {
      WaitsCarryNoBytes(us[..|us| - 1], n);
      SilentWait(us[|us| - 1], n);
    }
  }

  lemma SilentWait(u: Update, n: nat)
    requires Valid(u, n)
    ensures Contribution(u, n).waits.bytes == 0
  {
  }

  lemma NothingCounted(n: nat)
    ensures Overall(Zero(n)) == ZERO
  {
    hide ArSum, Plus, Zero;
    ZeroFields(n);
    ArSumZero(n);
    PlusLaws(ZERO, ZERO, ZERO, ZERO);
  }

  /** The state of a run as far as sums are concerned. */
  predicate Accounts(s: State, us: seq<Update>, n: nat)
    requires AllValid(us, n)
  {
    && Shaped(Finish(s), n)
    && Sum(Finish(s), n) == Tally(us, n)
    && s.totals == Totals(BytesOf(us), |us|, LatencyOf(us))
  }

  lemma RollKeepsSum(s: State, usec: nat, n: nat)
    requires Shaped(Finish(s), n)
    ensures var r := Roll(s, usec); Shaped(Finish(r), n) && Sum(Finish(r), n) == Sum(Finish(s), n)
  {
    var r := Roll(s, usec);
    assert Finish(s)[|s.stats|] == s.cur;
    if r != s {
      SumSnoc(Finish(s), r.cur, n);
      AddZero(Sum(Finish(s), n));
    }
  }

  lemma BumpLastAdds(l: seq<Second>, x: Second, u: Update, n: nat)
    requires Shaped(l + [x], n) && Valid(u, n) && |x.counters.arbitrary| == n
    ensures var y := x.(counters := Bump(x.counters, u));
            Shaped(l + [y], n) && Sum(l + [y], n) == Add(Sum(l + [x], n), Contribution(u, n))
  {
    hide Sum, Add, Bump, Contribution;
    assert Shaped(l, n) by {
      forall i | 0 <= i < |l| ensures |l[i].counters.arbitrary| == n { assert (l + [x])[i] == l[i]; }
    }
    var y := x.(counters := Bump(x.counters, u));
    SumSnoc(l, x, n);
    SumSnoc(l, y, n);
    BumpAdds(x.counters, u);
    AddAssociates(Sum(l, n), x.counters, Contribution(u, n));
  }

  lemma {:induction false} RunAccounts(us: seq<Update>, n: nat)
    requires AllValid(us, n)
    ensures Accounts(Run(n, us), us, n)
    decreases |us|
  {
    hide Sum, Add, Bump, Contribution, Roll;
    if us == [] {
      var none: seq<Second> := [];
      SumSnoc(none, Initial(n).cur, n);
      AddZero(Zero(n));
      SumNone(n);
      assert none + [Initial(n).cur] == Finish(Initial(n));
    } else {
      var s, u := Run(n, us[..|us| - 1]), us[|us| - 1];
      RunAccounts(us[..|us| - 1], n);
      RollKeepsSum(s, u.usec, n);
      var r := Roll(s, u.usec);
      RollShape(s, u.usec);
      BumpLastAdds(r.stats, r.cur, u, n);
    }
  }

  lemma SumNone(n: nat)
    ensures Sum([], n) == Zero(n)
  {
  }

  lemma RollShape(s: State, usec: nat)
    ensures var r := Roll(s, usec); |r.cur.counters.arbitrary| == |s.cur.counters.arbitrary| && r.totals == s.totals
    ensures Increasing(Finish(s)) ==> Increasing(Finish(Roll(s, usec)))
  {
    var l := Finish(s);
    assert l[|l| - 1] == s.cur;
  }

  lemma SameSeconds(a: seq<Second>, b: seq<Second>)
    requires |a| == |b| && (forall i :: 0 <= i < |a| ==> a[i].second == b[i].second) && Increasing(a)
    ensures Increasing(b)
  {
  }

  lemma {:induction false} RunIncreases(us: seq<Update>, n: nat)
    requires AllValid(us, n)
    ensures Increasing(Finish(Run(n, us)))
    decreases |us|
  {
    hide Bump, Roll;
    if us == [] {
    } else {
      var s, u := Run(n, us[..|us| - 1]), us[|us| - 1];
      RunIncreases(us[..|us| - 1], n);
      RollShape(s, u.usec);
      SameSeconds(Finish(Roll(s, u.usec)), Finish(Run(n, us)));
    }
  }

  /** Whatever the order of the timestamps, the seconds of a finished run strictly increase, their counters add up to
      every update made, and operations, bytes and latency agree with the running totals. */
  lemma RunConserves(us: seq<Update>, n: nat)
    requires AllValid(us, n)
    ensures var s := Run(n, us);
            && Increasing(Finish(s)) && Shaped(Finish(s), n)
            && Sum(Finish(s), n) == Tally(us, n)
            && Overall(Sum(Finish(s), n)).ops == s.totals.ops == |us|
            && Overall(Sum(Finish(s), n)).bytes == s.totals.bytes == BytesOf(us)
            && Overall(Sum(Finish(s), n)).latency == s.totals.latency == LatencyOf(us)
  {
    hide Run, Sum, Tally, Overall;
    RunAccounts(us, n);
    RunIncreases(us, n);
    TallyCounts(us, n);
  }

  // ----- each update in its own second -----

  predicate Ordered(us: seq<Update>) {
    forall i, j :: 0 <= i < j < |us| ==> us[i].usec <= us[j].usec
  }

  function Clock(u: Update): nat {
    u.usec / 1000000
  }

  /** The updates that fall in second k. */
  function During(us: seq<Update>, k: nat): (r: seq<Update>)
    ensures forall u :: u in r <==> u in us && Clock(u) == k
    decreases |us|
  {
    if us == [] then []
    else During(us[..|us| - 1], k) + if Clock(us[|us| - 1]) == k then [us[|us| - 1]] else []
  }

  /** The last entry of the list is the current second and holds what fell in it; so do the earlier ones. */
  predicate Sorted(l: seq<Second>, us: seq<Update>, n: nat)
    requires AllValid(us, n)
  {
    forall i :: 0 <= i < |l| ==>
      AllValid(During(us, l[i].second), n) && l[i].counters == Tally(During(us, l[i].second), n)
  }

  lemma DuringSnoc(us: seq<Update>, u: Update, k: nat)
    ensures During(us + [u], k) == During(us, k) + if Clock(u) == k then [u] else []
  {
    assert (us + [u])[..|us|] == us;
  }

  lemma TallySnoc(us: seq<Update>, u: Update, n: nat)
    requires AllValid(us, n) && Valid(u, n)
    ensures AllValid(us + [u], n) && Tally(us + [u], n) == Add(Tally(us, n), Contribution(u, n))
  {
    assert (us + [u])[..|us|] == us;
  }

  /** Nothing has fallen in a second that is still to come. */
  lemma {:induction false} NothingYet(us: seq<Update>, k: nat)
    requires forall i :: 0 <= i < |us| ==> Clock(us[i]) < k
    ensures |During(us, k)| == 0
    decreases |us|
  {
    if us != [] {
      NothingYet(us[..|us| - 1], k);
    }
  }

  predicate UpTo(us: seq<Update>, k: nat) {
    forall i :: 0 <= i < |us| ==> Clock(us[i]) <= k
  }

  /** With timestamps in order, a finished run holds one entry per second, made of exactly the replies of that
      second. */
  predicate Timely(s: State, us: seq<Update>, n: nat)
    requires AllValid(us, n)
  {
    Sorted(Finish(s), us, n) && Increasing(Finish(s)) && UpTo(us, s.cur.second) && |s.cur.counters.arbitrary| == n
  }

  /** Rolling over keeps what every entry holds: the new second has seen nothing yet. */
  lemma RollTimely(s: State, us: seq<Update>, u: Update, n: nat)
    requires AllValid(us, n) && Timely(s, us, n)
    ensures Timely(Roll(s, u.usec), us, n)
  {
    hide Tally, During;
    var r := Roll(s, u.usec);
    RollShape(s, u.usec);
    if r != s {
      NothingYet(us, Clock(u));
      NoTally(During(us, Clock(u)), n);
      assert Finish(r) == Finish(s) + [r.cur];
    }
  }

  lemma NoTally(us: seq<Update>, n: nat)
    requires |us| == 0
    ensures AllValid(us, n) && Tally(us, n) == Zero(n)
  {
  }

  /** An update of the current second goes to the current entry and to no other. */
  lemma BumpTimely(l: seq<Second>, x: Second, us: seq<Update>, u: Update, n: nat)
    requires AllValid(us, n) && Valid(u, n) && |x.counters.arbitrary| == n
    requires Sorted(l + [x], us, n) && Increasing(l + [x]) && Clock(u) == x.second
    ensures AllValid(us + [u], n) && Sorted(l + [x.(counters := Bump(x.counters, u))], us + [u], n)
  {
    hide Tally, During, Bump, Add, Contribution;
    var y := x.(counters := Bump(x.counters, u));
    var l' := l + [y];
    TallySnoc(us, u, n);
    forall i | 0 <= i < |l'|
      ensures AllValid(During(us + [u], l'[i].second), n)
      ensures l'[i].counters == Tally(During(us + [u], l'[i].second), n)
    {
      assert (l + [x])[i].second == l'[i].second;
      DuringSnoc(us, u, l'[i].second);
      if i < |l| {
        assert l'[i].second < (l + [x])[|l|].second;
        assert During(us, l'[i].second) + [] == During(us, l'[i].second);
        assert l'[i] == (l + [x])[i];
      } else {
        assert x == (l + [x])[|l|];
        TallySnoc(During(us, x.second), u, n);
        BumpAdds(x.counters, u);
      }
    }
  }

  lemma {:induction false} RunIsTimely(us: seq<Update>, n: nat)
    requires AllValid(us, n) && Ordered(us)
    ensures Timely(Run(n, us), us, n)
    decreases |us|
  {
    hide Tally, During, Bump;
    RunIncreases(us, n);
    if us == [] {
      NothingYet(us, 0);
      NoTally(During(us, 0), n);
    } else {
      var before, u := us[..|us| - 1], us[|us| - 1];
      var s := Run(n, before);
      RunIsTimely(before, n);
      RollTimely(s, before, u, n);
      var r := Roll(s, u.usec);
      RunClock(us, n);
      BumpTimely(r.stats, r.cur, before, u, n);
      assert before + [u] == us;
    }
  }

  /** With timestamps in order the current second is the second of the latest update. */
  lemma {:induction false} RunClock(us: seq<Update>, n: nat)
    requires AllValid(us, n) && Ordered(us)
    ensures Run(n, us).cur.second == if us == [] then 0 else Clock(us[|us| - 1])
    ensures UpTo(us, Run(n, us).cur.second)
    decreases |us|
  {
    hide Bump;
    if us != [] {
      var before, u := us[..|us| - 1], us[|us| - 1];
      RunClock(before, n);
      forall i | 0 <= i < |us| ensures Clock(us[i]) <= Clock(u) {
        if i < |us| - 1 {
          assert us[i].usec <= us[|us| - 1].usec;
        }
      }
      if before != [] {
        assert before[|before| - 1] == us[|us| - 2];
      }
    }
  }
}
