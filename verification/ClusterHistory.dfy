/** What the cluster client sends, in which order: queues, rounds of SETs and GETs, and where keys come from. */
module ClusterHistory {
  import opened Arithmetic
  import opened ByteStrings
  import opened ClusterRun
  import opened ClusterSlots
  import opened ClusterState
  import Scheduler

  // ----- queues -----

  /** The requests a step has put behind those that connection c was waiting for. */
  function Added(s: Cluster, t: Cluster, c: nat): seq<Request>
    requires c < |s.conns| && c < |t.conns|
  {
    var before, after := s.conns[c].pipeline, t.conns[c].pipeline;
    if |before| <= |after| then after[|before|..] else []
  }

  /** Queues are first in, first out: a reply takes the oldest request of its connection, setup and creation put
      requests behind, and no step touches the queue of another connection. */
  predicate QueueStep(s: Cluster, e: Event, t: Cluster, c: nat)
    requires c < |t.conns|
  {
    var before, after := if c < |s.conns| then s.conns[c].pipeline else [], t.conns[c].pipeline;
    if e.c != c then after == before
    else if e.Replied? then before != [] && after == before[1..]
    else if e.SetupSent? || e.Created? then before <= after
    else after == before
  }

  lemma QueueStepHolds(cfg: Config, s: Cluster, e: Event, c: nat)
    requires WellFormed(s) && Enabled(cfg, s, e)
    ensures |s.conns| <= |Next(cfg, s, e).conns|
    ensures c < |Next(cfg, s, e).conns| ==> QueueStep(s, e, Next(cfg, s, e), c)
  {
    hide Create, HandleReply, SendSetup, WellFormed;
    match e
    case ConnectionUp(d) =>
    case ConnectionDown(d) =>
    case SetupSent(d) => SetupQueues(s.conns[d]);
    case Created(d, keys) => var _ := CreateQueues(cfg, s, d, keys);
    case Replied(d, r) => ReplyQueues(cfg, s, d, r);
  }

  lemma SetupQueues(c: Conn)
    ensures c.pipeline <= SendSetup(c).pipeline
  {
  }

  /** A reply takes the oldest request of its connection and leaves all other queues and the ratio counters alone. */
  predicate TakesOne(s: Cluster, c: nat, t: Cluster)
    requires c < |s.conns|
  {
    && |s.conns| <= |t.conns|
    && s.conns[c].pipeline != [] && t.conns[c].pipeline == s.conns[c].pipeline[1..]
    && (forall d :: 0 <= d < |t.conns| && d != c ==>
          t.conns[d].pipeline == if d < |s.conns| then s.conns[d].pipeline else [])
    && t.setCount == s.setCount && t.getCount == s.getCount && t.totSet == s.totSet && t.totWait == s.totWait
  }

  lemma ReplyQueues(cfg: Config, s: Cluster, c: nat, r: Reply)
    requires WellFormed(s) && c < |s.conns| && s.conns[c].pipeline != []
    ensures TakesOne(s, c, HandleReply(cfg, s, c, r))
  {
    if s.conns[c].pipeline[0].kind.SlotsReq? {
      SlotsQueues(cfg, s, c, r);
    } else {
      PopInFlight(s, c);
      var t := SetConn(s, c, Pop(s.conns[c]));
      hide HandleSlots, HandleMoved, WellFormed, Keeps, TakesOne;
      MovedKeeps(t, c);
      KeptQueues(s, c, t, HandleMoved(t, c));
      var u := HandleReply(cfg, s, c, r);
      SameQueues(s, c, if IsData(s.conns[c].pipeline[0]) && r.error && r.moved then HandleMoved(t, c) else t, u);
    }
  }

  lemma SlotsQueues(cfg: Config, s: Cluster, c: nat, r: Reply)
    requires WellFormed(s) && c < |s.conns| && s.conns[c].pipeline != [] && s.conns[c].pipeline[0].kind.SlotsReq?
    ensures TakesOne(s, c, HandleReply(cfg, s, c, r))
  {
    PopInFlight(s, c);
    var t := SetConn(s, c, Pop(s.conns[c]));
    var h := HandleSlots(cfg, t, r.shards);
    hide HandleSlots, WellFormed, Keeps;
    HandleSlotsKeeps(cfg, t, r.shards);
    KeptQueues(s, c, t, h);
    hide TakesOne, Pop;
    SlotsFlag(s, c, h);
    assert HandleReply(cfg, s, c, r) == if r.shards == [] then t else SetConn(h, c, h.conns[c].(slots := SetupDone));
  }

  lemma SlotsFlag(s: Cluster, c: nat, h: Cluster)
    requires c < |s.conns| && TakesOne(s, c, h)
    ensures c < |h.conns| && TakesOne(s, c, SetConn(h, c, h.conns[c].(slots := SetupDone)))
  {
  }

  /** Setup flags and the count of replies do not matter. */
  lemma SameQueues(s: Cluster, c: nat, t: Cluster, u: Cluster)
    requires c < |s.conns| && TakesOne(s, c, t)
    requires |u.conns| == |t.conns| && forall d :: 0 <= d < |t.conns| ==> u.conns[d].pipeline == t.conns[d].pipeline
    requires SameRatios(t, u) && u.totWait == t.totWait
    ensures TakesOne(s, c, u)
  {
  }

  lemma KeptQueues(s: Cluster, c: nat, t: Cluster, u: Cluster)
    requires c < |s.conns| && s.conns[c].pipeline != [] && t == SetConn(s, c, Pop(s.conns[c])) && Keeps(t, u)
    ensures TakesOne(s, c, t) && TakesOne(s, c, u)
  {
    hide WellFormed, InFlight, Pooled;
  }

  // ----- one request -----

  /** A key search leaves queues and ratio counters alone. */
  predicate Untouched(s: Cluster, t: Cluster) {
    && |t.conns| == |s.conns| && (forall d :: 0 <= d < |s.conns| ==> t.conns[d].pipeline == s.conns[d].pipeline)
    && t.setCount == s.setCount && t.getCount == s.getCount && t.totSet == s.totSet && t.totWait == s.totWait
  }

  lemma {:induction false} SearchUntouched(cfg: Config, s: Cluster, c: nat, keys: seq<nat>)
    requires WellFormed(s) && c < |s.conns|
    ensures var r := Search(cfg, s, c, keys); !r.Unfinished? ==> Untouched(s, r.s)
    decreases |keys|
  {
    if keys != [] {
      hide Search;
      SearchUnfolds(cfg, s, c, keys);
      var o := s.slotMap[cfg.keySlot(keys[0])];
      if o != c && o < |s.conns| && !s.conns[o].state.Disconnected? {
        SearchUntouched(cfg, s, c, keys[1..]);
        if s.conns[o].slots.SetupDone? {
          PoolBooks(s, o, keys[0]);
          SearchUntouched(cfg, Pool(s, o, keys[0]), c, keys[1..]);
        }
      }
    }
  }

  lemma GetKeyUntouched(cfg: Config, s: Cluster, c: nat, keys: seq<nat>)
    requires WellFormed(s) && c < |s.conns|
    ensures var r := GetKey(cfg, s, c, keys); !r.Unfinished? ==> Untouched(s, r.s)
  {
    hide Search;
    SearchUntouched(cfg, s, c, keys);
  }

  /** What create_request may do: send one request and count it, close the round, or give up on a key. */
  datatype Outcome = SentWait | SentSet(key: nat) | SentGet(key: nat) | NewRound | NoKey

  function Sends(o: Outcome): seq<Request> {
    match o
    case SentWait => [Request(WaitReq, 0)]
    case SentSet(key) => [Request(SetReq, key)]
    case SentGet(key) => [Request(GetReq, key)]
    case _ => []
  }

  predicate Counts(cfg: Config, s: Cluster, o: Outcome, t: Cluster) {
    match o
    case SentWait => cfg.waitB != 0 && SameRatios(s, t) && t.totWait == s.totWait + 1
    case SentSet(_) =>
      && s.setCount < cfg.ratioA && t.setCount == s.setCount + 1 && t.getCount == s.getCount
      && t.totSet == s.totSet + 1 && t.totWait == s.totWait
    case SentGet(_) =>
      && s.setCount >= cfg.ratioA && s.getCount < cfg.ratioB && t.setCount == s.setCount && t.getCount == s.getCount + 1
      && t.totSet == s.totSet && t.totWait == s.totWait
    case NewRound =>
      && s.setCount >= cfg.ratioA && s.getCount >= cfg.ratioB && t.setCount == 0 && t.getCount == 0
      && t.totSet == s.totSet && t.totWait == s.totWait
    case NoKey => SameRatios(s, t) && t.totWait == s.totWait
  }

  predicate SameRatios(s: Cluster, t: Cluster) {
    t.setCount == s.setCount && t.getCount == s.getCount && t.totSet == s.totSet
  }

  lemma CreateQueues(cfg: Config, s: Cluster, c: nat, keys: seq<nat>) returns (o: Outcome)
    requires WellFormed(s) && c < |s.conns| && Create(cfg, s, c, keys).Some?
    ensures var t := Create(cfg, s, c, keys).value;
            && |t.conns| == |s.conns| && t.conns[c].pipeline == s.conns[c].pipeline + Sends(o)
            && (forall d :: 0 <= d < |s.conns| && d != c ==> t.conns[d].pipeline == s.conns[d].pipeline)
            && Counts(cfg, s, o, t)
            && (WaitIsDue(cfg, s) <==> o.SentWait?)
            && (o.SentSet? || o.SentGet? ==> GetKey(cfg, s, c, keys).Got? && GetKey(cfg, s, c, keys).key == o.key)
  {
    GetKeyUntouched(cfg, s, c, keys);
    var r := GetKey(cfg, s, c, keys);
    hide GetKey;
    o := if WaitIsDue(cfg, s) then SentWait
         else if s.setCount < cfg.ratioA then (if r.Got? then SentSet(r.key) else NoKey)
         else if s.getCount < cfg.ratioB then (if r.Got? then SentGet(r.key) else NoKey)
         else NewRound;
  }

  // ----- rounds -----

  /** The requests that create_request has queued along a run, in order. */
  function Issued(cfg: Config, s: Cluster, events: seq<Event>): seq<Request>
    decreases |events|
  {
    if events == [] then []
    else
      var front, e := events[..|events| - 1], events[|events| - 1];
      Issued(cfg, s, front) +
      match (Run(cfg, s, front), Run(cfg, s, events))
      case (Some(t), Some(u)) => if e.Created? && e.c < |t.conns| && e.c < |u.conns| then Added(t, u, e.c) else []
      case _ => []
  }

  /** The SETs and GETs among some requests. */
  function Keyed(rs: seq<Request>): seq<RequestKind>
    decreases |rs|
  {
    if rs == [] then []
    else
      var r := rs[|rs| - 1];
      Keyed(rs[..|rs| - 1]) + if IsKeyed(r) then [r.kind] else []
  }

  function CountOf(rs: seq<Request>, k: RequestKind): nat
    decreases |rs|
  {
    if rs == [] then 0 else CountOf(rs[..|rs| - 1], k) + if rs[|rs| - 1].kind == k then 1 else 0
  }

  /** The i-th of an endless sequence of rounds of ratioA SETs and ratioB GETs. */
  function InRounds(cfg: Config, i: nat): RequestKind {
    if cfg.ratioA + cfg.ratioB == 0 || i % (cfg.ratioA + cfg.ratioB) < cfg.ratioA then SetReq else GetReq
  }

  /** h is so many whole rounds and what the counters say of the next one. */
  predicate InStep(cfg: Config, rs: seq<Request>, t: Cluster, rounds: nat) {
    var h := Keyed(rs);
    && |h| == rounds * (cfg.ratioA + cfg.ratioB) + t.setCount + t.getCount
    && t.setCount <= cfg.ratioA && t.getCount <= cfg.ratioB && (t.getCount > 0 ==> t.setCount == cfg.ratioA)
    && (forall i :: 0 <= i < |h| ==> h[i] == InRounds(cfg, i))
    && t.totSet == CountOf(rs, SetReq) && t.totWait == CountOf(rs, WaitReq)
  }

  lemma OneMore(rs: seq<Request>, r: Request)
    ensures Keyed(rs + [r]) == Keyed(rs) + if IsKeyed(r) then [r.kind] else []
    ensures forall k :: CountOf(rs + [r], k) == CountOf(rs, k) + if r.kind == k then 1 else 0
  {
    assert (rs + [r])[..|rs|] == rs;
  }

  lemma PlaceInRound(cfg: Config, rounds: nat, place: nat)
    requires place < cfg.ratioA + cfg.ratioB
    ensures InRounds(cfg, rounds * (cfg.ratioA + cfg.ratioB) + place) == if place < cfg.ratioA then SetReq else GetReq
  {
    var n := cfg.ratioA + cfg.ratioB;
    DivModUnique(rounds * n + place, n, rounds, place);
  }

  lemma OutcomeInStep(cfg: Config, s: Cluster, o: Outcome, t: Cluster, rs: seq<Request>, rounds: nat)
    returns (more: nat)
    requires InStep(cfg, rs, s, rounds) && Counts(cfg, s, o, t)
    ensures InStep(cfg, rs + Sends(o), t, more)
  {
    hide InRounds, Keyed, CountOf;
    more := rounds;
    match o
    case SentWait => OneMore(rs, Request(WaitReq, 0));
    case SentSet(key) =>
      OneMore(rs, Request(SetReq, key));
      PlaceInRound(cfg, rounds, s.setCount);
    case SentGet(key) =>
      OneMore(rs, Request(GetReq, key));
      PlaceInRound(cfg, rounds, s.setCount + s.getCount);
    case NewRound =>
      more := rounds + 1;
      var n := cfg.ratioA + cfg.ratioB;
      assert rs + Sends(o) == rs && (rounds + 1) * n == rounds * n + n;
    case NoKey => assert rs + Sends(o) == rs;
  }

  /** Steps other than create_request leave the ratio counters alone. */
  lemma OthersKeepRatios(cfg: Config, s: Cluster, e: Event)
    requires WellFormed(s) && Enabled(cfg, s, e) && !e.Created?
    ensures var t := Next(cfg, s, e); SameRatios(s, t) && t.totWait == s.totWait
  {
    hide HandleReply, SendSetup, WellFormed;
    if e.Replied? {
      ReplyQueues(cfg, s, e.c, e.r);
    }
  }

  /** Over every run the SETs and GETs that create_request queues, in order, are whole rounds of ratioA SETs and
      then ratioB GETs, and a beginning of one more, of which the counters say how far it has come; the SETs and
      WAITs counted are those queued. */
  lemma {:induction false} ClusterRunRounds(cfg: Config, s: Cluster, events: seq<Event>) returns (rounds: nat)
    requires Initial(s) && Run(cfg, s, events).Some?
    ensures InStep(cfg, Issued(cfg, s, events), Run(cfg, s, events).value, rounds)
    decreases |events|
  {
    hide Enabled, Next, InStep, WellFormed;
    if events == [] {
      rounds := 0;
      NoneInStep(cfg, s);
    } else {
      var front, e := events[..|events| - 1], events[|events| - 1];
      rounds := ClusterRunRounds(cfg, s, front);
      RunKeepsInvariant(cfg, s, front);
      rounds := StepInStep(cfg, Run(cfg, s, front).value, e, Issued(cfg, s, front), rounds);
      var t, u := Run(cfg, s, front).value, Run(cfg, s, events).value;
      if !e.Created? {
        assert Issued(cfg, s, events) == Issued(cfg, s, front);
      }
    }
  }

  lemma NoneInStep(cfg: Config, s: Cluster)
    requires Initial(s)
    ensures InStep(cfg, [], s, 0)
  {
  }

  lemma StepInStep(cfg: Config, s: Cluster, e: Event, rs: seq<Request>, rounds: nat) returns (more: nat)
    requires WellFormed(s) && Enabled(cfg, s, e) && InStep(cfg, rs, s, rounds)
    ensures var t := Next(cfg, s, e);
            && e.c < |s.conns| && e.c < |t.conns|
            && InStep(cfg, rs + if e.Created? then Added(s, t, e.c) else [], t, more)
  {
    var t := Next(cfg, s, e);
    if e.Created? {
      var o := CreateQueues(cfg, s, e.c, e.keys);
      assert Added(s, t, e.c) == Sends(o);
      hide *;
      more := OutcomeInStep(cfg, s, o, t, rs, rounds);
    } else {
      more := rounds;
      QueueStepHolds(cfg, s, e, e.c);
      OthersKeepRatios(cfg, s, e);
      assert rs + [] == rs;
    }
  }

  // ----- the WAIT ratio -----

  /** No WAIT before the first request; after it the SETs are within one block of q + 1 of their share of the WAITs. */
  predicate WaitsFit(cfg: Config, sets: nat, waits: nat)
    requires cfg.waitB > 0
  {
    var q := cfg.waitA / cfg.waitB;
    if waits == 0 then sets == 0 else (q + 1) * (waits - 1) <= sets <= (q + 1) * waits
  }

  lemma OutcomeFits(cfg: Config, s: Cluster, o: Outcome, t: Cluster)
    requires cfg.waitB > 0 && WaitsFit(cfg, s.totSet, s.totWait)
    requires Counts(cfg, s, o, t) && (WaitIsDue(cfg, s) <==> o.SentWait?)
    ensures WaitsFit(cfg, t.totSet, t.totWait) && t.totWait > 0
  {
    var q := cfg.waitA / cfg.waitB;
    if s.totWait > 0 {
      Scheduler.MoreThan(s.totSet, s.totWait, q);
      assert (q + 1) * (s.totWait + 1) == (q + 1) * s.totWait + (q + 1);
    }
  }

  lemma {:induction false} TotalsFit(cfg: Config, s: Cluster, events: seq<Event>)
    requires Initial(s) && Run(cfg, s, events).Some? && cfg.waitB > 0
    ensures var t := Run(cfg, s, events).value;
            WaitsFit(cfg, t.totSet, t.totWait) && (Issued(cfg, s, events) != [] ==> t.totWait > 0)
    decreases |events|
  {
    hide Enabled, WellFormed, HandleReply, SendSetup, Create, WaitsFit;
    if events == [] {
      NothingFits(cfg);
    } else {
      var front, e := events[..|events| - 1], events[|events| - 1];
      TotalsFit(cfg, s, front);
      RunKeepsInvariant(cfg, s, front);
      StepFits(cfg, Run(cfg, s, front).value, e);
    }
  }

  lemma NothingFits(cfg: Config)
    requires cfg.waitB > 0
    ensures WaitsFit(cfg, 0, 0)
  {
  }

  lemma StepFits(cfg: Config, s: Cluster, e: Event)
    requires WellFormed(s) && Enabled(cfg, s, e) && cfg.waitB > 0 && WaitsFit(cfg, s.totSet, s.totWait)
    ensures var t := Next(cfg, s, e);
            WaitsFit(cfg, t.totSet, t.totWait) && (e.Created? || s.totWait > 0 ==> t.totWait > 0)
  {
    hide WaitsFit;
    if e.Created? {
      var o := CreateQueues(cfg, s, e.c, e.keys);
      OutcomeFits(cfg, s, o, Next(cfg, s, e));
    } else {
      OthersKeepRatios(cfg, s, e);
    }
  }

  /** With WAIT on, over every run: no request is queued before the first WAIT, and the SETs and WAITs queued stay in
      ratio. */
  lemma ClusterWaitRatio(cfg: Config, s: Cluster, events: seq<Event>)
    requires Initial(s) && Run(cfg, s, events).Some? && cfg.waitB > 0
    ensures var rs := Issued(cfg, s, events);
            && WaitsFit(cfg, CountOf(rs, SetReq), CountOf(rs, WaitReq))
            && (rs != [] ==> CountOf(rs, WaitReq) > 0)
  {
    hide Issued, Run, CountOf, WaitsFit;
    var rounds := ClusterRunRounds(cfg, s, events);
    TotalsFit(cfg, s, events);
  }

  // ----- whole queues -----

  /** Everything put into the queue of connection c along a run, in order. */
  function Queued(cfg: Config, s: Cluster, events: seq<Event>, c: nat): seq<Request>
    decreases |events|
  {
    if events == [] then []
    else
      var front, e := events[..|events| - 1], events[|events| - 1];
      Queued(cfg, s, front, c) +
      match (Run(cfg, s, front), Run(cfg, s, events))
      case (Some(t), Some(u)) => if e.c == c && c < |t.conns| && c < |u.conns| then Added(t, u, c) else []
      case _ => []
  }

  /** The replies that came in on connection c. */
  function Answered(events: seq<Event>, c: nat): nat
    decreases |events|
  {
    if events == [] then 0
    else
      var e := events[|events| - 1];
      Answered(events[..|events| - 1], c) + if e.Replied? && e.c == c then 1 else 0
  }

  /** Over every run each reply is taken as the answer to the oldest request still unanswered on its connection: what
      a connection waits for is what was ever queued on it, without as many of the first as there were replies. */
  lemma {:induction false} RepliesAnswerInOrder(cfg: Config, s: Cluster, events: seq<Event>, c: nat)
    requires Initial(s) && Run(cfg, s, events).Some?
    ensures var t := Run(cfg, s, events).value; var q := Queued(cfg, s, events, c); var n := Answered(events, c);
            && n <= |q|
            && q[n..] == if c < |t.conns| then t.conns[c].pipeline else []
    decreases |events|
  {
    hide Enabled, Next, WellFormed;
    if events != [] {
      var front, e := events[..|events| - 1], events[|events| - 1];
      RepliesAnswerInOrder(cfg, s, front, c);
      RunKeepsInvariant(cfg, s, front);
      var t, u := Run(cfg, s, front).value, Run(cfg, s, events).value;
      QueueStepHolds(cfg, t, e, c);
      EventInRange(cfg, t, e);
      QueueGoesOn(Queued(cfg, s, front, c), Answered(front, c), t, e, u, c);
    }
  }

  lemma EventInRange(cfg: Config, s: Cluster, e: Event)
    requires |s.conns| == |s.pools| && |s.slotMap| == SLOTS && Enabled(cfg, s, e)
    ensures e.c < |s.conns|
  {
    hide Create, Hold;
  }

  lemma QueueGoesOn(q: seq<Request>, n: nat, t: Cluster, e: Event, u: Cluster, c: nat)
    requires |t.conns| <= |u.conns| && e.c < |t.conns| && (c < |u.conns| ==> QueueStep(t, e, u, c))
    requires n <= |q| && q[n..] == if c < |t.conns| then t.conns[c].pipeline else []
    ensures var more := q + if e.c == c && c < |t.conns| && c < |u.conns| then Added(t, u, c) else [];
            var m := n + if e.Replied? && e.c == c then 1 else 0;
            m <= |more| && more[m..] == if c < |u.conns| then u.conns[c].pipeline else []
  {
  }

  // ----- where keys come from -----

  /** The connection a key belongs to. */
  function OwnerOf(cfg: Config, slotMap: seq<nat>, key: nat): nat
    requires |slotMap| == SLOTS
  {
    slotMap[cfg.keySlot(key)]
  }

  /** The keys of connection p among some keys, in order. */
  function KeysOf(cfg: Config, slotMap: seq<nat>, keys: seq<nat>, p: nat): seq<nat>
    requires |slotMap| == SLOTS
  {
    if keys == [] then []
    else (if OwnerOf(cfg, slotMap, keys[0]) == p then [keys[0]] else []) + KeysOf(cfg, slotMap, keys[1..], p)
  }

  /** A pool with keys put behind those it has, as far as there is room. */
  function Filled(pool: seq<nat>, keys: seq<nat>): seq<nat>
    requires |pool| <= KEY_INDEX_QUEUE_MAX_SIZE
  {
    var room := KEY_INDEX_QUEUE_MAX_SIZE - |pool|;
    pool + if |keys| <= room then keys else keys[..room]
  }

  /** What connection p gets of some keys: those of its slots, in order, if it knows the slots. */
  function Share(cfg: Config, s: Cluster, keys: seq<nat>, p: nat): seq<nat>
    requires |s.slotMap| == SLOTS && p < |s.conns|
  {
    if s.conns[p].slots.SetupDone? then KeysOf(cfg, s.slotMap, keys, p) else []
  }

  /** The pools of t are those of s with some keys dealt out. */
  predicate Dealt(cfg: Config, s: Cluster, keys: seq<nat>, t: Cluster)
    requires WellFormed(s)
  {
    && |t.pools| == |s.pools|
    && forall p :: 0 <= p < |s.pools| ==> t.pools[p] == Filled(s.pools[p], Share(cfg, s, keys, p))
  }

  /** The key belongs to another connection, which is open. */
  predicate Elsewhere(cfg: Config, s: Cluster, c: nat, key: nat)
    requires |s.slotMap| == SLOTS
  {
    var o := OwnerOf(cfg, s.slotMap, key); o != c && o < |s.conns| && !s.conns[o].state.Disconnected?
  }

  /** The key belongs to a connection that is closed. */
  predicate Unreachable(cfg: Config, s: Cluster, key: nat)
    requires |s.slotMap| == SLOTS
  {
    var o := OwnerOf(cfg, s.slotMap, key); o < |s.conns| && s.conns[o].state.Disconnected?
  }

  /** What a search means: it deals out the first n keys, which belong elsewhere, and ends at the next: with the first
      key of the asking connection, at a closed connection, when the budget is used up, or for want of keys. */
  predicate SearchMeans(cfg: Config, s: Cluster, c: nat, keys: seq<nat>, n: nat, r: KeyResult)
    requires WellFormed(s) && n <= |keys| && c < |s.conns|
  {
    && (forall i :: 0 <= i < n ==> Elsewhere(cfg, s, c, keys[i]))
    && match r
       case Got(t, key) =>
         && n < |keys| && key == keys[n] && OwnerOf(cfg, s.slotMap, key) == c
         && Dealt(cfg, s, keys[..n], t) && t.conns == s.conns
       case GaveUp(t) =>
         && Dealt(cfg, s, keys[..n], t)
         && ((n > 0 && cfg.requests > 0 && t.generated >= cfg.requests && t.conns == s.conns) ||
             (n < |keys| && Unreachable(cfg, s, keys[n]) && t.conns == s.conns[c := s.conns[c].(slots := NotSent)]))
       case Unfinished => n < |keys| ==> OwnerOf(cfg, s.slotMap, keys[n]) >= |s.conns|
  }

  /** Every search has that meaning. */
  lemma {:induction false} SearchDeals(cfg: Config, s: Cluster, c: nat, keys: seq<nat>) returns (n: nat)
    requires WellFormed(s) && c < |s.conns|
    ensures n <= |keys| && SearchMeans(cfg, s, c, keys, n, Search(cfg, s, c, keys))
    decreases |keys|
  {
    n := 0;
    if keys == [] || !Elsewhere(cfg, s, c, keys[0]) {
      SearchEnds(cfg, s, c, keys);
    } else {
      var t, over := KeyPassed(cfg, s, c, keys);
      hide *;
      if over {
        n := 1;
        BudgetUsedUp(cfg, s, c, keys, t);
      } else {
        var m := SearchDeals(cfg, t, c, keys[1..]);
        n := m + 1;
        OneMoreDealt(cfg, s, c, keys, m, t, Search(cfg, t, c, keys[1..]));
      }
    }
  }

  lemma SearchEnds(cfg: Config, s: Cluster, c: nat, keys: seq<nat>)
    requires WellFormed(s) && c < |s.conns| && (keys == [] || !Elsewhere(cfg, s, c, keys[0]))
    ensures SearchMeans(cfg, s, c, keys, 0, Search(cfg, s, c, keys))
  {
    NothingDealt(cfg, s, keys, s);
    NothingDealt(cfg, s, keys, s.(generated := s.generated + 1));
    NothingDealt(cfg, s, keys, s.(conns := s.conns[c := s.conns[c].(slots := NotSent)]));
    hide Dealt;
  }

  /** A key for another connection: it is dealt out, and the search gives up or goes on. */
  lemma KeyPassed(cfg: Config, s: Cluster, c: nat, keys: seq<nat>) returns (t: Cluster, over: bool)
    requires WellFormed(s) && c < |s.conns| && keys != [] && Elsewhere(cfg, s, c, keys[0])
    ensures WellFormed(t) && t.conns == s.conns && t.slotMap == s.slotMap && Dealt(cfg, s, [keys[0]], t)
    ensures Search(cfg, s, c, keys) == if over then GaveUp(t) else Search(cfg, t, c, keys[1..])
    ensures over ==> cfg.requests > 0 && t.generated >= cfg.requests
  {
    var o := OwnerOf(cfg, s.slotMap, keys[0]);
    t := if s.conns[o].slots.SetupDone? then Pool(s, o, keys[0]) else s;
    over := s.conns[o].slots.SetupDone? && cfg.requests > 0 && t.generated >= cfg.requests;
    SearchUnfolds(cfg, s, c, keys);
    FirstDealt(cfg, s, keys[0], t);
    PoolBooks(s, o, keys[0]);
    hide Search, Dealt;
  }

  lemma BudgetUsedUp(cfg: Config, s: Cluster, c: nat, keys: seq<nat>, t: Cluster)
    requires WellFormed(s) && c < |s.conns| && keys != [] && Elsewhere(cfg, s, c, keys[0])
    requires t.conns == s.conns && Dealt(cfg, s, [keys[0]], t) && cfg.requests > 0 && t.generated >= cfg.requests
    ensures SearchMeans(cfg, s, c, keys, 1, GaveUp(t))
  {
    hide Dealt, WellFormed;
    assert keys[..1] == [keys[0]];
  }

  lemma NothingDealt(cfg: Config, s: Cluster, keys: seq<nat>, t: Cluster)
    requires WellFormed(s) && t.pools == s.pools
    ensures Dealt(cfg, s, keys[..0], t)
  {
  }

  lemma FirstDealt(cfg: Config, s: Cluster, key: nat, t: Cluster)
    requires WellFormed(s) && OwnerOf(cfg, s.slotMap, key) < |s.conns|
    requires var o := OwnerOf(cfg, s.slotMap, key); t == if s.conns[o].slots.SetupDone? then Pool(s, o, key) else s
    ensures Dealt(cfg, s, [key], t)
  {
    var none: seq<nat> := [];
    assert [key][1..] == none;
    forall p | 0 <= p < |s.pools| ensures t.pools[p] == Filled(s.pools[p], Share(cfg, s, [key], p)) {
      assert KeysOf(cfg, s.slotMap, none, p) == [];
    }
  }

  lemma OneMoreDealt(cfg: Config, s: Cluster, c: nat, keys: seq<nat>, m: nat, t: Cluster, r: KeyResult)
    requires WellFormed(s) && WellFormed(t) && c < |s.conns| && keys != [] && m < |keys|
    requires Elsewhere(cfg, s, c, keys[0]) && Dealt(cfg, s, [keys[0]], t)
    requires t.conns == s.conns && t.slotMap == s.slotMap
    requires SearchMeans(cfg, t, c, keys[1..], m, r)
    ensures SearchMeans(cfg, s, c, keys, m + 1, r)
  {
    assert |s.slotMap| == SLOTS;
    hide WellFormed, Dealt;
    forall i | 0 <= i < m + 1 ensures Elsewhere(cfg, s, c, keys[i]) {
      assert i > 0 ==> Elsewhere(cfg, t, c, keys[1..][i - 1]);
    }
    assert [keys[0]] + keys[1..][..m] == keys[..m + 1];
    if !r.Unfinished? {
      DealtTwice(cfg, s, keys[0], t, keys[1..][..m], r.s);
    }
  }

  lemma DealtTwice(cfg: Config, s: Cluster, key: nat, t: Cluster, keys: seq<nat>, u: Cluster)
    requires WellFormed(s) && WellFormed(t) && t.conns == s.conns && t.slotMap == s.slotMap
    requires Dealt(cfg, s, [key], t) && Dealt(cfg, t, keys, u)
    ensures Dealt(cfg, s, [key] + keys, u)
  {
    forall p | 0 <= p < |s.pools| ensures u.pools[p] == Filled(s.pools[p], Share(cfg, s, [key] + keys, p)) {
      KeysOfMore(cfg, s.slotMap, key, keys, p);
      FilledTwice(s.pools[p], Share(cfg, s, [key], p), Share(cfg, s, keys, p));
    }
  }

  lemma KeysOfMore(cfg: Config, slotMap: seq<nat>, key: nat, keys: seq<nat>, p: nat)
    requires |slotMap| == SLOTS
    ensures KeysOf(cfg, slotMap, [key] + keys, p) == KeysOf(cfg, slotMap, [key], p) + KeysOf(cfg, slotMap, keys, p)
  {
    var none: seq<nat> := [];
    assert ([key] + keys)[1..] == keys && [key][1..] == none;
  }

  lemma FilledTwice(pool: seq<nat>, a: seq<nat>, b: seq<nat>)
    requires |pool| <= KEY_INDEX_QUEUE_MAX_SIZE
    ensures |Filled(pool, a)| <= KEY_INDEX_QUEUE_MAX_SIZE && Filled(Filled(pool, a), b) == Filled(pool, a + b)
  {
  }

  /** The key of a request: the oldest one pooled for its connection, or, if there is none, the first key the
      generator yields for it, while the keys drawn before it are dealt out to their own connections. */
  lemma KeysComeInOrder(cfg: Config, s: Cluster, c: nat, keys: seq<nat>) returns (n: nat)
    requires WellFormed(s) && c < |s.conns|
    ensures n <= |keys|
    ensures var r := GetKey(cfg, s, c, keys);
            if s.pools[c] == [] then SearchMeans(cfg, s, c, keys, n, r)
            else r.Got? && s.pools[c] == [r.key] + r.s.pools[c] && r.s == s.(pools := s.pools[c := r.s.pools[c]])
  {
    n := SearchDeals(cfg, s, c, keys);
  }
}
