/** The cluster client does not stop before its work is done. */
module ClusterProgress {
  import opened ByteStrings
  import opened ClusterHistory
  import opened ClusterRun
  import opened ClusterSetup
  import opened ClusterSlots
  import opened ClusterState

  /** An open connection that is set up, has room in its queue and has work left may create a request: with a key
      pooled for it whatever the budget says, and otherwise while the budget lasts and the generator yields its keys. */
  lemma MayGoOn(cfg: Config, s: Cluster, c: nat, keys: seq<nat>)
    requires WellFormed(s) && Live(s, c) && ClusterRun.SetupComplete(s.conns[c])
    requires |s.conns[c].pipeline| < cfg.pipeline && (cfg.requests > 0 ==> s.processed < cfg.requests)
    requires s.pools[c] != [] || (
               && (cfg.requests > 0 ==> s.generated < cfg.requests)
               && keys != [] && OwnerOf(cfg, s.slotMap, keys[0]) == c)
    ensures Enabled(cfg, s, Created(c, keys))
  {
    hide InFlight, Pooled;
  }

  // ----- runs in pieces -----

  lemma {:induction false} RunThen(cfg: Config, s: Cluster, a: seq<Event>, b: seq<Event>)
    requires Run(cfg, s, a).Some?
    ensures Run(cfg, s, a + b) == Run(cfg, Run(cfg, s, a).value, b)
    decreases |b|
  {
    hide Enabled, Next;
    if b == [] {
      assert a + b == a;
    } else {
      RunThen(cfg, s, a, b[..|b| - 1]);
      assert (a + b)[..|a + b| - 1] == a + b[..|b| - 1];
    }
  }

  lemma RunOne(cfg: Config, s: Cluster, e: Event)
    requires |s.conns| == |s.pools| && |s.slotMap| == SLOTS && Enabled(cfg, s, e)
    ensures Run(cfg, s, [e]) == Some(Next(cfg, s, e))
  {
    hide Enabled, Next;
    var none: seq<Event> := [];
    assert [e][..0] == none && Run(cfg, s, none) == Some(s);
  }

  // ----- one server -----

  /** Set up, with nothing to wait for, and all slots on the one connection. */
  predicate Idle(s: Cluster) {
    && WellFormed(s) && |s.conns| == 1 && s.pools == [[]] && s.conns[0].pipeline == []
    && s.conns[0].state.Connected? && ClusterRun.SetupComplete(s.conns[0])
    && (forall j :: 0 <= j < SLOTS ==> s.slotMap[j] == 0)
    && s.generated == s.processed
  }

  /** The options leave something to do, and nothing of it is a WAIT. */
  predicate Working(cfg: Config) {
    cfg.requests > 0 && cfg.pipeline > 0 && cfg.ratioA + cfg.ratioB > 0 && Allowed(cfg)
  }

  /** A good reply, naming the one server for all slots. */
  function Good(s: Cluster): Reply
    requires |s.conns| == 1
  {
    Reply(false, false, true, [Shard(0, SLOTS - 1, s.conns[0].address, s.conns[0].port, Started)])
  }

  predicate RoundOver(cfg: Config, s: Cluster) {
    s.setCount >= cfg.ratioA && s.getCount >= cfg.ratioB
  }

  /** A new round costs a call of create_request. */
  lemma StartRound(cfg: Config, s: Cluster) returns (t: Cluster)
    requires Working(cfg) && Idle(s) && s.processed < cfg.requests
    ensures Idle(t) && t.processed == s.processed && !RoundOver(cfg, t)
    ensures t == s || Run(cfg, s, [Created(0, [0])]) == Some(t)
  {
    t := s;
    if RoundOver(cfg, s) {
      MayGoOn(cfg, s, 0, [0]);
      RunOne(cfg, s, Created(0, [0]));
      t := Next(cfg, s, Created(0, [0]));
    }
  }

  /** A request and its reply. */
  lemma SendAndReceive(cfg: Config, s: Cluster) returns (events: seq<Event>, t: Cluster)
    requires Working(cfg) && Idle(s) && s.processed < cfg.requests && !RoundOver(cfg, s)
    ensures Run(cfg, s, events) == Some(t) && Idle(t) && t.processed == s.processed + 1
  {
    MayGoOn(cfg, s, 0, [0]);
    var e := Created(0, [0]);
    var u := Next(cfg, s, e);
    RunOne(cfg, s, e);
    Requested(cfg, s);
    var r := Replied(0, Good(u));
    t := Next(cfg, u, r);
    Received(cfg, u);
    RunOne(cfg, u, r);
    RunThen(cfg, s, [e], [r]);
    events := [e] + [r];
  }

  /** One data request is waiting for its reply. */
  predicate Busy(s: Cluster) {
    && WellFormed(s) && |s.conns| == 1 && s.pools == [[]]
    && |s.conns[0].pipeline| == 1 && IsData(s.conns[0].pipeline[0])
    && s.conns[0].state.Connected? && ClusterRun.SetupComplete(s.conns[0])
    && (forall j :: 0 <= j < SLOTS ==> s.slotMap[j] == 0)
    && s.generated == s.processed + 1
  }

  lemma Requested(cfg: Config, s: Cluster)
    requires Working(cfg) && Idle(s) && !RoundOver(cfg, s) && Enabled(cfg, s, Created(0, [0]))
    ensures var u := Next(cfg, s, Created(0, [0])); Busy(u) && u.processed == s.processed
  {
    var key: seq<nat> := [0];
    assert s.pools[0] == [] && OwnerOf(cfg, s.slotMap, key[0]) == 0;
    assert GetKey(cfg, s, 0, key) == Got(s.(generated := s.generated + 1), 0);
    hide Search, GetKey, InFlight, Pooled;
  }

  lemma Received(cfg: Config, u: Cluster)
    requires Busy(u)
    ensures InRange(Good(u).shards) && Enabled(cfg, u, Replied(0, Good(u)))
    ensures var t := Next(cfg, u, Replied(0, Good(u))); Idle(t) && t.processed == u.processed + 1
  {
    hide HandleSlots, InFlight, Pooled;
  }

  /** From an idle state the whole budget can be worked off. */
  lemma {:induction false} WorksOff(cfg: Config, s: Cluster) returns (events: seq<Event>)
    requires Working(cfg) && Idle(s) && s.processed <= cfg.requests
    ensures Run(cfg, s, events).Some? && Run(cfg, s, events).value.processed == cfg.requests
    decreases cfg.requests - s.processed
  {
    hide Run, Idle;
    events := [];
    if s.processed == cfg.requests {
      RunNothing(cfg, s);
    } else {
      var t := StartRound(cfg, s);
      var pair, u := SendAndReceive(cfg, t);
      var rest := WorksOff(cfg, u);
      RunThen(cfg, t, pair, rest);
      events := pair + rest;
      if t != s {
        RunThen(cfg, s, [Created(0, [0])], events);
        events := [Created(0, [0])] + events;
      }
    }
  }

  lemma RunNothing(cfg: Config, s: Cluster)
    ensures Run(cfg, s, []) == Some(s)
  {
  }

  // ----- from the start -----

  /** The setup commands are on their way, or accepted. */
  predicate SettingUp(s: Cluster) {
    && WellFormed(s) && |s.conns| == 1 && s.pools == [[]] && s.generated == s.processed == 0
    && var d := s.conns[0];
       && d.state.Connected? && !d.auth.NotSent? && !d.selectDb.NotSent? && d.slots.Sent?
       && d.pipeline == (if d.auth.Sent? then [Request(AuthReq, 0)] else [])
                      + (if d.selectDb.Sent? then [Request(SelectReq, 0)] else [])
                      + [Request(SlotsReq, 0)]
  }

  lemma SetupAnswered(cfg: Config, s: Cluster) returns (t: Cluster)
    requires SettingUp(s) && (s.conns[0].auth.Sent? || s.conns[0].selectDb.Sent?)
    ensures Run(cfg, s, [Replied(0, Good(s))]) == Some(t) && SettingUp(t)
    ensures |t.conns[0].pipeline| < |s.conns[0].pipeline|
  {
    var e := Replied(0, Good(s));
    t := Next(cfg, s, e);
    hide HandleSlots, InFlight, Pooled;
    RunOne(cfg, s, e);
  }

  lemma SlotsAnswered(cfg: Config, s: Cluster) returns (t: Cluster)
    requires SettingUp(s) && !s.conns[0].auth.Sent? && !s.conns[0].selectDb.Sent?
    ensures Run(cfg, s, [Replied(0, Good(s))]) == Some(t) && Idle(t) && t.processed == 0
  {
    var e := Replied(0, Good(s));
    var p, h := SlotsReplyIs(cfg, s, 0, e.r);
    t := Next(cfg, s, e);
    RunOne(cfg, s, e);
    OneServer(cfg, p, e.r.shards);
    hide HandleReply, HandleSlots, InFlight, Pooled;
  }

  /** A reply naming the only server for all slots. */
  lemma OneServer(cfg: Config, s: Cluster, shards: seq<Shard>)
    requires WellFormed(s) && |s.conns| == 1 && s.pools == [[]] && s.conns[0].state.Connected?
    requires shards == [Shard(0, SLOTS - 1, s.conns[0].address, s.conns[0].port, Started)]
    ensures var h := HandleSlots(cfg, s, shards);
            && WellFormed(h) && h.conns == s.conns && h.pools == [[]]
            && (forall j :: 0 <= j < SLOTS ==> h.slotMap[j] == 0)
            && h.generated == s.generated && h.processed == s.processed
  {
    var h := HandleSlots(cfg, s, shards);
    HandleSlotsKeeps(cfg, s, shards);
    ApplyAllShrinksPools(cfg, s, shards);
    assert Known(s.conns, shards[0]);
    KnownAddsNothing(cfg, s, shards);
    assert Named(s.conns[0], shards);
    HandleSlotsCloses(cfg, s, shards, 0);
    forall j | 0 <= j < SLOTS ensures h.slotMap[j] == 0 {
      HandleSlotsMaps(cfg, s, shards, j);
    }
  }

  lemma {:induction false} SetupCompletes(cfg: Config, s: Cluster) returns (events: seq<Event>, t: Cluster)
    requires SettingUp(s)
    ensures Run(cfg, s, events) == Some(t) && Idle(t) && t.processed == 0
    decreases |s.conns[0].pipeline|
  {
    hide Run, Idle;
    events := [Replied(0, Good(s))];
    if s.conns[0].auth.Sent? || s.conns[0].selectDb.Sent? {
      var u := SetupAnswered(cfg, s);
      var rest;
      rest, t := SetupCompletes(cfg, u);
      RunThen(cfg, s, events, rest);
      events := events + rest;
    } else {
      t := SlotsAnswered(cfg, s);
    }
  }

  lemma SetupBegins(cfg: Config, s: Cluster) returns (events: seq<Event>, t: Cluster)
    requires Begins(cfg, s) && Working(cfg)
    ensures Run(cfg, s, events) == Some(t) && SettingUp(t)
  {
    var up := Next(cfg, s, ConnectionUp(0));
    RunOne(cfg, s, ConnectionUp(0));
    t := Next(cfg, up, SetupSent(0));
    RunOne(cfg, up, SetupSent(0));
    RunThen(cfg, s, [ConnectionUp(0)], [SetupSent(0)]);
    events := [ConnectionUp(0)] + [SetupSent(0)];
  }

  /** Whatever the options and the key slots, there is a run from the start that has every request of the budget
      answered. */
  lemma SomeRunCompletes(cfg: Config, s: Cluster) returns (events: seq<Event>)
    requires Begins(cfg, s) && Working(cfg)
    ensures Run(cfg, s, events).Some? && Run(cfg, s, events).value.processed == cfg.requests
  {
    hide Run, Idle, SettingUp;
    var a, t := SetupBegins(cfg, s);
    var b, u := SetupCompletes(cfg, t);
    var c := WorksOff(cfg, u);
    RunThen(cfg, s, a, b);
    RunThen(cfg, s, a + b, c);
    events := a + b + c;
  }
}
