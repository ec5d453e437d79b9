/** The run_stats object: updates in place, merge and summarize as loops. */
module StatsClient {
  import opened RunStats
  import opened StatsMerge

  class Statistics {
    const n: nat
    var stats: seq<Second>
    var cur: Second
    var totals: Totals

    ghost function Now(): State
      reads this
    {
      State(stats, cur, totals)
    }

    ghost predicate Ok()
      reads this
    {
      |cur.counters.arbitrary| == n
    }

    constructor (n: nat)
      ensures this.n == n && Ok() && Now() == Initial(n)
    {
      this.n := n;
      stats, cur, totals := [], Second(0, Zero(n)), Totals(0, 0, 0);
    }

    /** run_stats::roll_cur_stats. */
    method RollCurStats(usec: nat)
      requires Ok()
      modifies this
      ensures Ok() && Now() == Roll(old(Now()), usec)
    {
      var sec := usec / 1000000;
      if sec > cur.second {
        stats := stats + [cur];
        cur := Second(sec, Zero(n));
      }
    }

    /** totals::update_op. */
    method UpdateTotals(bytes: nat, latency: nat)
      modifies this`totals
      ensures totals == Totals(old(totals).bytes + bytes, old(totals).ops + 1, old(totals).latency + latency)
    {
      totals := Totals(totals.bytes + bytes, totals.ops + 1, totals.latency + latency);
    }

    /** run_stats::update_get_op. */
    method UpdateGetOp(usec: nat, bytes: nat, latency: nat, hits: nat, misses: nat)
      requires Ok()
      modifies this
      ensures Ok() && Now() == Step(old(Now()), Update(usec, Get(hits, misses), bytes, latency))
    {
      RollCurStats(usec);
      var c := cur.counters;
      cur := cur.(counters := c.(gets := Plus(c.gets, Cmd(bytes, 1, hits, misses, 0, 0, latency))));
      UpdateTotals(bytes, latency);
    }

    /** run_stats::update_set_op. */
    method UpdateSetOp(usec: nat, bytes: nat, latency: nat)
      requires Ok()
      modifies this
      ensures Ok() && Now() == Step(old(Now()), Update(usec, Set, bytes, latency))
    {
      RollCurStats(usec);
      var c := cur.counters;
      cur := cur.(counters := c.(sets := Plus(c.sets, Cmd(bytes, 1, 0, 0, 0, 0, latency))));
      UpdateTotals(bytes, latency);
    }

    /** run_stats::update_moved_get_op and update_moved_set_op. */
    method UpdateMovedOp(usec: nat, bytes: nat, latency: nat, isGet: bool)
      requires Ok()
      modifies this
      ensures Ok() && Now() == Step(old(Now()), Update(usec, if isGet then MovedGet else MovedSet, bytes, latency))
    {
      RollCurStats(usec);
      var c, one := cur.counters, Cmd(bytes, 1, 0, 0, 1, 0, latency);
      cur := cur.(counters := if isGet then c.(gets := Plus(c.gets, one)) else c.(sets := Plus(c.sets, one)));
      UpdateTotals(bytes, latency);
    }

    /** run_stats::update_ask_get_op and update_ask_set_op. */
    method UpdateAskOp(usec: nat, bytes: nat, latency: nat, isGet: bool)
      requires Ok()
      modifies this
      ensures Ok() && Now() == Step(old(Now()), Update(usec, if isGet then AskGet else AskSet, bytes, latency))
    {
      RollCurStats(usec);
      var c, one := cur.counters, Cmd(bytes, 1, 0, 0, 0, 1, latency);
      cur := cur.(counters := if isGet then c.(gets := Plus(c.gets, one)) else c.(sets := Plus(c.sets, one)));
      UpdateTotals(bytes, latency);
    }

    /** run_stats::update_wait_op. */
    method UpdateWaitOp(usec: nat, latency: nat)
      requires Ok()
      modifies this
      ensures Ok() && Now() == Step(old(Now()), Update(usec, Wait, 0, latency))
    {
      RollCurStats(usec);
      var c := cur.counters;
      cur := cur.(counters := c.(waits := Plus(c.waits, Cmd(0, 1, 0, 0, 0, 0, latency))));
      UpdateTotals(0, latency);
    }

    /** run_stats::update_arbitrary_op. */
    method UpdateArbitraryOp(usec: nat, bytes: nat, latency: nat, index: nat)
      requires Ok() && index < n
      modifies this
      ensures Ok() && Now() == Step(old(Now()), Update(usec, Arbitrary(index), bytes, latency))
    {
      RollCurStats(usec);
      var c := cur.counters;
      var sum := Plus(c.arbitrary[index], Cmd(bytes, 1, 0, 0, 0, 0, latency));
      cur := cur.(counters := c.(arbitrary := c.arbitrary[index := sum]));
      UpdateTotals(bytes, latency);
    }

    /** One handled reply goes to the update of its kind, as client::handle_response and the cluster client's
        redirection handlers choose it. */
    method Handle(u: Update)
      requires Ok() && Valid(u, n)
      modifies this
      ensures Ok() && Now() == Step(old(Now()), u)
    {
      hide Roll, Plus;
      match u.kind
      case Get(hits, misses) => UpdateGetOp(u.usec, u.bytes, u.latency, hits, misses);
      case Set => UpdateSetOp(u.usec, u.bytes, u.latency);
      case MovedGet => UpdateMovedOp(u.usec, u.bytes, u.latency, true);
      case MovedSet => UpdateMovedOp(u.usec, u.bytes, u.latency, false);
      case AskGet => UpdateAskOp(u.usec, u.bytes, u.latency, true);
      case AskSet => UpdateAskOp(u.usec, u.bytes, u.latency, false);
      case Wait => UpdateWaitOp(u.usec, u.latency);
      case Arbitrary(index) => UpdateArbitraryOp(u.usec, u.bytes, u.latency, index);
    }

    /** A client from its first reply to set_end_time: the seconds strictly increase and add up to every reply
        handled. */
    method HandleAll(us: seq<Update>)
      requires Ok() && Now() == Initial(n) && AllValid(us, n)
      modifies this
      ensures stats == Client(us, n) && Shaped(stats, n) && Increasing(stats)
      ensures Sum(stats, n) == Tally(us, n) && totals == Totals(BytesOf(us), |us|, LatencyOf(us))
    {
      hide Step, Sum, Tally;
      for i := 0 to |us|
        invariant Ok() && AllValid(us[..i], n) && Now() == Run(n, us[..i])
      {
        assert us[..i + 1][..i] == us[..i];
        Handle(us[i]);
      }
      assert us[..|us|] == us;
      RunConserves(us, n);
      SetEndTime();
    }

    /** run_stats::set_end_time. */
    method SetEndTime()
      modifies this`stats
      ensures stats == Finish(old(Now()))
    {
      stats := stats + [cur];
    }

    /** The inner loop of run_stats::merge: find the entry of a second, or append. */
    method MergeEntry(x: Second) returns (merged: bool)
      requires Shaped(stats, n) && |x.counters.arbitrary| == n
      modifies this`stats
      ensures stats == MergeOne(old(stats), x, n) && Shaped(stats, n)
      ensures merged <==> |stats| == |old(stats)|
    {
      hide MergeOne, MergeSecond;
      merged := false;
      var i := 0;
      while i < |stats|
        invariant 0 <= i <= |stats| && stats == old(stats) && !merged
        invariant forall j :: 0 <= j < i ==> stats[j].second != x.second
      {
        if stats[i].second == x.second {
          MergeOneFound(stats, x, i, n);
          stats := stats[i := MergeSecond(stats[i], x)];
          merged := true;
          return;
        }
        i := i + 1;
      }
      MergeOneNew(stats, x, n);
      stats := stats + [x];
    }

    /** run_stats::merge, on the counters. */
    method Merge(other: Statistics)
      requires other != this && other.n == n && Shaped(stats, n) && Shaped(other.stats, n)
      modifies this
      ensures stats == StatsMerge.Merge(old(stats), other.stats, n)
      ensures totals == Totals(old(totals).bytes + other.totals.bytes, old(totals).ops + other.totals.ops,
                               old(totals).latency + other.totals.latency)
      ensures cur == old(cur)
    {
      hide MergeOne, Sort;
      var newStats := false;
      var i := 0;
      while i < |other.stats|
        invariant 0 <= i <= |other.stats| && cur == old(cur) && totals == old(totals)
        invariant Shaped(stats, n) && Shaped(other.stats[..i], n)
        invariant stats == MergeList(old(stats), other.stats[..i], n)
        invariant newStats <==> |stats| > |old(stats)|
      {
        assert other.stats[..i + 1][..i] == other.stats[..i];
        var merged := MergeEntry(other.stats[i]);
        if !merged {
          newStats := true;
        }
        i := i + 1;
      }
      assert other.stats[..i] == other.stats;
      if newStats {
        stats := Sort(stats);
      }
      totals := Totals(totals.bytes + other.totals.bytes, totals.ops + other.totals.ops,
                       totals.latency + other.totals.latency);
    }

    /** The integer part of run_stats::summarize. */
    method Summary() returns (r: StatsMerge.Summary)
      requires Shaped(stats, n)
      ensures r == Summarize(stats, n)
    {
      hide Add;
      var c := Zero(n);
      var i := 0;
      while i < |stats|
        invariant 0 <= i <= |stats| && Shaped(stats[..i], n) && c == Sum(stats[..i], n)
      {
        assert stats[..i + 1][..i] == stats[..i];
        c := Add(c, stats[i].counters);
        i := i + 1;
      }
      assert stats[..i] == stats;
      var ops, bytes, latency := ArTotals(c.arbitrary);
      r := StatsMerge.Summary(c.sets.ops + c.gets.ops + c.waits.ops + ops, c.sets.bytes + c.gets.bytes + bytes,
                              c.sets.latency + c.gets.latency + c.waits.latency + latency);
    }
  }

  lemma {:induction false} MergeOneFound(l: seq<Second>, x: Second, i: nat, n: nat)
    requires Shaped(l, n) && |x.counters.arbitrary| == n && i < |l| && l[i].second == x.second
    requires forall j :: 0 <= j < i ==> l[j].second != x.second
    ensures MergeOne(l, x, n) == l[i := MergeSecond(l[i], x)]
  {
    hide MergeSecond;
    if i > 0 {
      MergeOneFound(l[1..], x, i - 1, n);
      assert [l[0]] + l[1..][i - 1 := MergeSecond(l[i], x)] == l[i := MergeSecond(l[i], x)];
    }
  }

  lemma {:induction false} MergeOneNew(l: seq<Second>, x: Second, n: nat)
    requires Shaped(l, n) && |x.counters.arbitrary| == n && forall j :: 0 <= j < |l| ==> l[j].second != x.second
    ensures MergeOne(l, x, n) == l + [x]
  {
    hide MergeSecond;
    if l != [] {
      MergeOneNew(l[1..], x, n);
    }
  }

  /** ar_one_sec_cmd_stats::ops, bytes and total_latency. */
  method ArTotals(cs: seq<Cmd>) returns (ops: nat, bytes: nat, latency: nat)
    ensures ops == ArSum(cs).ops && bytes == ArSum(cs).bytes && latency == ArSum(cs).latency
  {
    ops, bytes, latency := 0, 0, 0;
    var i := 0;
    while i < |cs|
      invariant 0 <= i <= |cs|
      invariant ops == ArSum(cs[..i]).ops && bytes == ArSum(cs[..i]).bytes && latency == ArSum(cs[..i]).latency
    {
      assert cs[..i + 1][..i] == cs[..i];
      ops, bytes, latency := ops + cs[i].ops, bytes + cs[i].bytes, latency + cs[i].latency;
      i := i + 1;
    }
    assert cs[..i] == cs;
  }
}
