/** Weighted round robin, and the WAIT ratio of client::create_request. */
module Scheduler {
  import opened Arithmetic

  function Sum(ws: seq<nat>): nat {
    if ws == [] then 0 else Sum(ws[..|ws| - 1]) + ws[|ws| - 1]
  }

  function Repeat(i: nat, n: nat): (r: seq<nat>)
    ensures |r| == n && forall k :: 0 <= k < n ==> r[k] == i
  {
    seq(n, _ => i)
  }

  /** Each index repeated as often as its weight. */
  function Expand(ws: seq<nat>): (r: seq<nat>)
    ensures |r| == Sum(ws)
  {
    if ws == [] then [] else Expand(ws[..|ws| - 1]) + Repeat(|ws| - 1, ws[|ws| - 1])
  }

  lemma {:induction false} ExpandAt(ws: seq<nat>, i: nat, c: nat)
    requires i < |ws| && c < ws[i]
    ensures Sum(ws[..i]) + c < Sum(ws) && Expand(ws)[Sum(ws[..i]) + c] == i
    decreases |ws|
  {
    var front := ws[..|ws| - 1];
    if i < |ws| - 1 {
      assert front[..i] == ws[..i];
      ExpandAt(front, i, c);
    }
  }

  /** The cursor: an index and how often it has been returned. */
  datatype Cursor = Cursor(index: nat, count: nat)

  predicate Fits(ws: seq<nat>, s: Cursor) {
    s.index < |ws| && s.count <= ws[s.index]
  }

  /** How many results precede the cursor in one round. */
  function Position(ws: seq<nat>, s: Cursor): nat
    requires s.index <= |ws|
  {
    Sum(ws[..s.index]) + s.count
  }

  lemma {:induction false} SumMonotone(ws: seq<nat>, i: nat)
    requires i <= |ws|
    ensures Sum(ws[..i]) <= Sum(ws)
    decreases |ws|
  {
    if i < |ws| {
      assert ws[..|ws| - 1][..i] == ws[..i];
      SumMonotone(ws[..|ws| - 1], i);
    } else {
      assert ws[..i] == ws;
    }
  }

  /** A positive weight exists when the sum is positive. */
  lemma {:induction false} SomeWeight(ws: seq<nat>) returns (t: nat)
    requires Sum(ws) > 0
    ensures t < |ws| && ws[t] > 0
    decreases |ws|
  {
    if ws[|ws| - 1] > 0 {
      t := |ws| - 1;
    } else {
      t := SomeWeight(ws[..|ws| - 1]);
    }
  }

  lemma PositionBound(ws: seq<nat>, s: Cursor)
    requires Fits(ws, s)
    ensures Position(ws, s) <= Sum(ws)
  {
    SumMonotone(ws, s.index + 1);
    assert ws[..s.index + 1][..s.index] == ws[..s.index];
  }

  /** A finished round is the start of the next one. */
  function Norm(ws: seq<nat>, p: nat): nat {
    if p == Sum(ws) then 0 else p
  }

  function After(ws: seq<nat>, i: nat): (j: nat)
    requires i < |ws|
    ensures j < |ws|
  {
    if i + 1 == |ws| then 0 else i + 1
  }

  /** Leaving an exhausted entry does not change the position in the round. */
  lemma LeaveKeeps(ws: seq<nat>, i: nat)
    requires i < |ws|
    ensures Norm(ws, Position(ws, Cursor(After(ws, i), 0))) == Norm(ws, Position(ws, Cursor(i, ws[i])))
  {
    assert ws[..i + 1][..i] == ws[..i];
    assert ws[..0] == [];
    if i + 1 == |ws| {
      assert ws[..i + 1] == ws;
    }
  }

  /** Steps from one index to another, going round. */
  function Distance(n: nat, from: nat, to: nat): nat
    requires from < n && to < n
  {
    if from <= to then to - from else to + n - from
  }

  /** How many entries the search may still leave. */
  function Left(ws: seq<nat>, target: nat, s: Cursor): nat
    requires s.index < |ws| && target < |ws|
  {
    if s.count < ws[s.index] then 0 else 1 + Distance(|ws|, After(ws, s.index), target)
  }

  /** The cursor after one result. */
  function Advance(ws: seq<nat>, p: nat): nat
    requires p <= Sum(ws)
  {
    Norm(ws, p) + 1
  }

  /** arbitrary_command_list::get_next_executed_command: skip exhausted and zero-weight entries, count the one found. */
  method NextCommand(ws: seq<nat>, s: Cursor) returns (i: nat, t: Cursor)
    requires Sum(ws) > 0 && Fits(ws, s)
    ensures i < |ws| && Fits(ws, t) && Position(ws, s) <= Sum(ws)
    ensures Norm(ws, Position(ws, s)) < Sum(ws) && i == Expand(ws)[Norm(ws, Position(ws, s))]
    ensures Position(ws, t) == Advance(ws, Position(ws, s))
  {
    hide Sum, Position, Norm, Expand;
    PositionBound(ws, s);
    ghost var target := SomeWeight(ws);
    var index: nat, count: nat := s.index, s.count;
    while true
      invariant Fits(ws, Cursor(index, count))
      invariant Norm(ws, Position(ws, Cursor(index, count))) == Norm(ws, Position(ws, s))
      decreases Left(ws, target, Cursor(index, count))
    {
      if count < ws[index] {
        Found(ws, Cursor(index, count));
        return index, Cursor(index, count + 1);
      }
      LeaveKeeps(ws, index);
      count := 0;
      index := index + 1;
      if index == |ws| {
        index := 0;
      }
    }
  }

  /** config_weight_list::get_next_size: the same schedule with the test at the head of the loop. */
  method NextSize(ws: seq<nat>, s: Cursor) returns (i: nat, t: Cursor)
    requires Sum(ws) > 0 && Fits(ws, s)
    ensures i < |ws| && Fits(ws, t) && Position(ws, s) <= Sum(ws)
    ensures Norm(ws, Position(ws, s)) < Sum(ws) && i == Expand(ws)[Norm(ws, Position(ws, s))]
    ensures Position(ws, t) == Advance(ws, Position(ws, s))
  {
    hide Sum, Position, Norm, Expand;
    PositionBound(ws, s);
    ghost var target := SomeWeight(ws);
    var index: nat, count: nat := s.index, s.count;
    while count >= ws[index]
      invariant Fits(ws, Cursor(index, count))
      invariant Norm(ws, Position(ws, Cursor(index, count))) == Norm(ws, Position(ws, s))
      decreases Left(ws, target, Cursor(index, count))
    {
      LeaveKeeps(ws, index);
      index := index + 1;
      count := 0;
      if index == |ws| {
        index := 0;
      }
    }
    Found(ws, Cursor(index, count));
    count := count + 1;
    i, t := index, Cursor(index, count);
  }

  lemma Found(ws: seq<nat>, s: Cursor)
    requires Fits(ws, s) && s.count < ws[s.index]
    ensures Norm(ws, Position(ws, s)) == Position(ws, s) < Sum(ws)
    ensures Expand(ws)[Position(ws, s)] == s.index
    ensures Position(ws, s.(count := s.count + 1)) == Position(ws, s) + 1
  {
    hide Sum, Expand;
    ExpandAt(ws, s.index, s.count);
  }

  // ----- the n-th result -----

  /** The position after n results from the start. */
  function PositionAfter(ws: seq<nat>, n: nat): (p: nat)
    requires Sum(ws) > 0
    ensures 0 <= p <= Sum(ws)
  {
    if n == 0 then 0 else Advance(ws, PositionAfter(ws, n - 1))
  }

  /** The n-th result is entry n mod W of the weighted list. */
  lemma {:induction false} NthResult(ws: seq<nat>, n: nat)
    requires Sum(ws) > 0
    ensures Norm(ws, PositionAfter(ws, n)) == n % Sum(ws)
  {
    hide Sum;
    if n > 0 {
      NthResult(ws, n - 1);
      DivModStep(n - 1, Sum(ws));
    }
  }

  /** A whole run of results from the initial cursor. */
  method Schedule(ws: seq<nat>, n: nat) returns (results: seq<nat>)
    requires Sum(ws) > 0
    ensures |results| == n && forall k :: 0 <= k < n ==> results[k] == Expand(ws)[k % Sum(ws)]
  {
    hide Sum, Expand, Position, Norm, Advance;
    StartFits(ws);
    var s := Cursor(0, 0);
    results := [];
    for k := 0 to n
      invariant |results| == k && Fits(ws, s) && Position(ws, s) == PositionAfter(ws, k)
      invariant forall j :: 0 <= j < k ==> results[j] == Expand(ws)[j % Sum(ws)]
    {
      NthResult(ws, k);
      var i, t := NextCommand(ws, s);
      results, s := results + [i], t;
    }
  }

  /** The same run with get_next_size. */
  method ScheduleSizes(ws: seq<nat>, n: nat) returns (results: seq<nat>)
    requires Sum(ws) > 0
    ensures |results| == n && forall k :: 0 <= k < n ==> results[k] == Expand(ws)[k % Sum(ws)]
  {
    hide Sum, Expand, Position, Norm, Advance;
    StartFits(ws);
    var s := Cursor(0, 0);
    results := [];
    for k := 0 to n
      invariant |results| == k && Fits(ws, s) && Position(ws, s) == PositionAfter(ws, k)
      invariant forall j :: 0 <= j < k ==> results[j] == Expand(ws)[j % Sum(ws)]
    {
      NthResult(ws, k);
      var i, t := NextSize(ws, s);
      results, s := results + [i], t;
    }
  }

  lemma StartFits(ws: seq<nat>)
    requires Sum(ws) > 0
    ensures Fits(ws, Cursor(0, 0)) && Position(ws, Cursor(0, 0)) == 0
  {
    assert ws[..0] == [];
  }

  // ----- WAIT -----

  /** The counters of client::create_request that the ratios depend on. */
  datatype Mix = Mix(waits: nat, sets: nat, setCount: nat, getCount: nat)

  /** SET:GET ratio, SET:WAIT ratio, and the MGET size (0 for plain GET). */
  datatype Ratios = Ratios(setRatio: nat, getRatio: nat, waitA: nat, waitB: nat, multiKeyGet: nat)

  datatype Kind = WaitOp | SetOp | GetOp(keys: nat) | NoOp

  function CreateRequest(c: Ratios, m: Mix): (Kind, Mix) {
    if c.waitB != 0 && (m.waits == 0 || m.sets / m.waits > c.waitA / c.waitB) then (WaitOp, m.(waits := m.waits + 1))
    else if m.setCount < c.setRatio then (SetOp, m.(sets := m.sets + 1, setCount := m.setCount + 1))
    else if m.getCount < c.getRatio then
      var wanted := c.getRatio - m.getCount;
      var keys := if c.multiKeyGet == 0 then 1 else if wanted > c.multiKeyGet then c.multiKeyGet else wanted;
      (GetOp(keys), m.(getCount := m.getCount + keys))
    else (NoOp, m.(setCount := 0, getCount := 0))
  }

  function MixAfter(c: Ratios, n: nat): Mix {
    if n == 0 then Mix(0, 0, 0, 0) else CreateRequest(c, MixAfter(c, n - 1)).1
  }

  // ----- rounds -----

  datatype Basic = OneSet | OneGet

  /** The operations of the first n calls, in order. */
  function Ops(c: Ratios, n: nat): (ops: seq<Kind>)
    ensures |ops| == n
  {
    if n == 0 then [] else Ops(c, n - 1) + [CreateRequest(c, MixAfter(c, n - 1)).0]
  }

  /** One operation in SETs and GETs of one key; an MGET of k keys is k GETs. */
  function BasicOf(k: Kind): seq<Basic> {
    match k
    case SetOp => [OneSet]
    case GetOp(keys) => seq(keys, _ => OneGet)
    case _ => []
  }

  function Basics(ops: seq<Kind>): seq<Basic>
    decreases |ops|
  {
    if ops == [] then [] else Basics(ops[..|ops| - 1]) + BasicOf(ops[|ops| - 1])
  }

  function CountKind(ops: seq<Kind>, k: Kind): nat
    decreases |ops|
  {
    if ops == [] then 0 else CountKind(ops[..|ops| - 1], k) + if ops[|ops| - 1] == k then 1 else 0
  }

  /** The i-th of an endless sequence of rounds of setRatio SETs and getRatio GETs. */
  function InRounds(c: Ratios, i: nat): Basic {
    if c.setRatio + c.getRatio == 0 || i % (c.setRatio + c.getRatio) < c.setRatio then OneSet else OneGet
  }

  /** The operations so far are base of whole rounds and what the counters say of the next one. */
  predicate InStepAt(c: Ratios, ops: seq<Kind>, m: Mix, base: nat) {
    var h := Basics(ops);
    && |h| == base + m.setCount + m.getCount
    && m.setCount <= c.setRatio && m.getCount <= c.getRatio && (m.getCount > 0 ==> m.setCount == c.setRatio)
    && (forall i :: 0 <= i < |h| ==> h[i] == InRounds(c, i))
    && m.sets == CountKind(ops, SetOp) && m.waits == CountKind(ops, WaitOp)
  }

  predicate InStep(c: Ratios, ops: seq<Kind>, m: Mix, rounds: nat) {
    InStepAt(c, ops, m, rounds * (c.setRatio + c.getRatio))
  }

  /** A round starts at base. */
  predicate StartsAt(c: Ratios, base: nat) {
    forall i :: base <= i < base + c.setRatio + c.getRatio ==>
      InRounds(c, i) == if i < base + c.setRatio then OneSet else OneGet
  }

  /** What a call may answer: a WAIT only with the ratio given, an MGET of as many keys as allowed unless fewer complete
      the round, and nothing only where a round ends. */
  predicate Fitting(c: Ratios, m: Mix, k: Kind) {
    match k
    case WaitOp => c.waitB != 0
    case SetOp => m.setCount < c.setRatio
    case GetOp(keys) =>
      && m.setCount == c.setRatio && 1 <= keys <= c.getRatio - m.getCount
      && (if c.multiKeyGet == 0 then keys == 1
          else keys == c.multiKeyGet || (keys < c.multiKeyGet && keys == c.getRatio - m.getCount))
    case NoOp => m.setCount == c.setRatio && m.getCount == c.getRatio
  }

  lemma RoundStarts(c: Ratios, rounds: nat)
    ensures StartsAt(c, rounds * (c.setRatio + c.getRatio))
  {
    var n := c.setRatio + c.getRatio;
    var base := rounds * n;
    forall i | base <= i < base + n ensures InRounds(c, i) == if i < base + c.setRatio then OneSet else OneGet {
      DivModUnique(i, n, rounds, i - base);
    }
  }

  lemma OpsSnoc(ops: seq<Kind>, k: Kind)
    ensures Basics(ops + [k]) == Basics(ops) + BasicOf(k)
    ensures forall x :: CountKind(ops + [k], x) == CountKind(ops, x) + if k == x then 1 else 0
  {
    hide BasicOf;
    assert (ops + [k])[..|ops|] == ops;
  }

  lemma CallFits(c: Ratios, ops: seq<Kind>, m: Mix, base: nat)
    requires InStepAt(c, ops, m, base)
    ensures Fitting(c, m, CreateRequest(c, m).0)
  {
    hide InRounds, Basics, CountKind;
  }

  lemma CallInStepAt(c: Ratios, ops: seq<Kind>, m: Mix, base: nat)
    requires InStepAt(c, ops, m, base) && StartsAt(c, base)
    ensures var (k, t) := CreateRequest(c, m);
            InStepAt(c, ops + [k], t, if k.NoOp? then base + c.setRatio + c.getRatio else base)
  {
    OpsSnoc(ops, CreateRequest(c, m).0);
    hide InRounds, Basics, CountKind;
  }

  lemma CallInStep(c: Ratios, ops: seq<Kind>, m: Mix, rounds: nat) returns (more: nat)
    requires InStep(c, ops, m, rounds)
    ensures var (k, t) := CreateRequest(c, m); Fitting(c, m, k) && InStep(c, ops + [k], t, more)
  {
    hide InStepAt, StartsAt, CreateRequest;
    var n := c.setRatio + c.getRatio;
    more := if CreateRequest(c, m).0.NoOp? then rounds + 1 else rounds;
    RoundStarts(c, rounds);
    CallFits(c, ops, m, rounds * n);
    CallInStepAt(c, ops, m, rounds * n);
    assert (rounds + 1) * n == rounds * n + n;
  }

  /** The operations of any number of calls, WAITs aside, are whole rounds of setRatio SETs and then getRatio GETs, an
      MGET counting as many as it has keys, and a beginning of one more; the SETs and WAITs counted are those
      returned. */
  lemma {:induction false} OpsFollowRatio(c: Ratios, n: nat) returns (rounds: nat)
    ensures InStep(c, Ops(c, n), MixAfter(c, n), rounds)
  {
    if n == 0 {
      rounds := 0;
    } else {
      hide InStep, CreateRequest;
      rounds := OpsFollowRatio(c, n - 1);
      rounds := CallInStep(c, Ops(c, n - 1), MixAfter(c, n - 1), rounds);
    }
  }

  /** Each of them fits the state it is made in. */
  lemma OpsFit(c: Ratios, n: nat)
    ensures Fitting(c, MixAfter(c, n), Ops(c, n + 1)[n])
  {
    hide InStep, CreateRequest, Fitting;
    var rounds := OpsFollowRatio(c, n);
    rounds := CallInStep(c, Ops(c, n), MixAfter(c, n), rounds);
  }

  // ----- the WAIT ratio -----

  /** The SETs of a state are within one block of q + 1 of their share of the WAITs. */
  predicate InBand(q: nat, m: Mix) {
    m.waits > 0 && (q + 1) * (m.waits - 1) <= m.sets <= (q + 1) * m.waits
  }

  /** With WAIT on, every state after the first call is in the band. */
  lemma {:induction false} WaitRatio(c: Ratios, n: nat)
    requires c.waitB > 0 && n > 0
    ensures InBand(c.waitA / c.waitB, MixAfter(c, n))
  {
    hide InBand, CreateRequest;
    var q := c.waitA / c.waitB;
    if n == 1 {
      FirstInBand(c, MixAfter(c, 0));
    } else {
      WaitRatio(c, n - 1);
      RequestInBand(c, MixAfter(c, n - 1));
    }
  }

  lemma FirstInBand(c: Ratios, m: Mix)
    requires c.waitB > 0 && m == Mix(0, 0, 0, 0)
    ensures InBand(c.waitA / c.waitB, CreateRequest(c, m).1)
  {
  }

  lemma RequestInBand(c: Ratios, m: Mix)
    requires c.waitB > 0 && InBand(c.waitA / c.waitB, m)
    ensures InBand(c.waitA / c.waitB, CreateRequest(c, m).1)
  {
    var q := c.waitA / c.waitB;
    var r := CreateRequest(c, m).1;
    MoreThan(m.sets, m.waits, q);
    hide InBand;
    if r.waits == m.waits + 1 {
      OneMoreWait(q, m, r);
    } else {
      OneMoreSet(q, m, r);
    }
  }

  lemma OneMoreWait(q: nat, m: Mix, r: Mix)
    requires InBand(q, m) && m.sets >= (q + 1) * m.waits && r.waits == m.waits + 1 && r.sets == m.sets
    ensures InBand(q, r)
  {
    assert (q + 1) * (m.waits + 1) == (q + 1) * m.waits + (q + 1);
  }

  lemma OneMoreSet(q: nat, m: Mix, r: Mix)
    requires InBand(q, m) && m.sets < (q + 1) * m.waits && r.waits == m.waits && m.sets <= r.sets <= m.sets + 1
    ensures InBand(q, r)
  {
  }

  lemma MoreThan(sets: nat, waits: nat, q: nat)
    requires waits > 0
    ensures sets / waits > q <==> sets >= (q + 1) * waits
  {
    var d, r, k := sets / waits, sets % waits, (q + 1) * waits;
    assert sets == d * waits + r && 0 <= r < waits;
    if d > q {
      Times(q + 1, d, waits);
    } else {
      Times(d + 1, q + 1, waits);
      assert (d + 1) * waits == d * waits + waits;
    }
  }

  lemma Times(a: nat, b: nat, w: nat)
    requires a <= b
    ensures a * w <= b * w
  {
    MulDifference(a, b, w);
    assert (b - a) * w >= 0;
  }
}
