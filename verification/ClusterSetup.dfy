/** Setup of cluster connections: what must have been accepted before data is sent, what a MOVED reply sets off, and
    that the client does not stop before its work is done. */
module ClusterSetup {
  import opened ByteStrings
  import opened ClusterHistory
  import opened ClusterRun
  import opened ClusterSlots
  import opened ClusterState

  // ----- connections as they are opened -----

  /** A connection just opened has to authenticate and to select its database if the options say so. */
  predicate FreshFlags(cfg: Config, d: Conn) {
    && d.auth == (if cfg.authenticate then NotSent else SetupDone)
    && d.selectDb == (if cfg.selectDb then NotSent else SetupDone)
  }

  /** Connecting throws the pool away, counting what was in it, and starts the setup over; only that one connection
      and its pool change. */
  lemma ConnectStartsOver(cfg: Config, s: Cluster, i: nat, e: Shard)
    requires WellFormed(s) && i < |s.conns| && SameServer(s.conns[i], e.address, e.port)
    ensures var t := ConnectShard(cfg, s, i, e);
            && t.pools[i] == [] && t.discarded == s.discarded + |s.pools[i]|
            && (e.attempt.Started? ==> t.conns[i].state.InProgress? && FreshFlags(cfg, t.conns[i]))
            && (forall d :: 0 <= d < |s.conns| && d != i ==> t.conns[d] == s.conns[d] && t.pools[d] == s.pools[d])
            && t.conns[i].slots == (if e.attempt.ConnectError? then SetupDone else s.conns[i].slots)
  {
  }

  /** Reaching a shard: its connection is at hand, and unless it was live before its pool is empty. */
  lemma ReachStartsOver(cfg: Config, s: Cluster, e: Shard)
    requires WellFormed(s)
    ensures var j := Find(s.conns, e.address, e.port); var t := Reach(cfg, s, e);
            && j < |t.conns| == |t.pools|
            && (j == |s.conns| || s.conns[j].state.Disconnected? ==>
                  && t.pools[j] == [] && t.discarded == s.discarded + (if j < |s.conns| then |s.pools[j]| else 0)
                  && (e.attempt.Started? ==> t.conns[j].state.InProgress? && FreshFlags(cfg, t.conns[j])))
            && (j < |s.conns| && !s.conns[j].state.Disconnected? ==> t == s)
  {
    var j := Find(s.conns, e.address, e.port);
    if j == |s.conns| {
      CreateKeeps(s, e);
      ConnectStartsOver(cfg, CreateShard(s, e), j, e);
    } else if s.conns[j].state.Disconnected? {
      ConnectStartsOver(cfg, s, j, e);
    }
  }

  lemma ApplyFresh(cfg: Config, s: Cluster, e: Shard, i: nat)
    requires WellFormed(s) && i < |Apply(cfg, s, e).conns|
    ensures var d := Apply(cfg, s, e).conns[i];
            (i < |s.conns| && d == s.conns[i]) || d.state.Disconnected? || FreshFlags(cfg, d)
  {
    hide InFlight, Pooled;
  }

  /** A reply to CLUSTER SLOTS opens connections as fresh ones and otherwise leaves live ones as they are. */
  lemma {:induction false} ApplyAllFresh(cfg: Config, s: Cluster, shards: seq<Shard>, i: nat)
    requires WellFormed(s) && i < |ApplyAll(cfg, s, shards).conns|
    ensures var d := ApplyAll(cfg, s, shards).conns[i];
            (i < |s.conns| && d == s.conns[i]) || d.state.Disconnected? || FreshFlags(cfg, d)
    decreases |shards|
  {
    hide Apply, Balanced;
    if shards != [] {
      var front, e := shards[..|shards| - 1], shards[|shards| - 1];
      var m := ApplyAll(cfg, s, front);
      ApplyAllKeeps(cfg, s, front);
      ApplyKeeps(cfg, m, e);
      ApplyFresh(cfg, m, e, i);
      if i < |m.conns| {
        ApplyAllFresh(cfg, s, front, i);
      }
    }
  }

  lemma SlotsFresh(cfg: Config, s: Cluster, shards: seq<Shard>, i: nat)
    requires WellFormed(s) && i < |HandleSlots(cfg, s, shards).conns|
    ensures var d := HandleSlots(cfg, s, shards).conns[i];
            !d.state.Disconnected? ==>
              if i < |s.conns| && !s.conns[i].state.Disconnected? then d == s.conns[i] else FreshFlags(cfg, d)
  {
    hide ApplyAll, Named, Tried;
    ApplyAllTouches(cfg, s, shards, i);
    ApplyAllFresh(cfg, s, shards, i);
  }

  // ----- setup before data -----

  /** The setup state of a connection that a kind of request is about. */
  function Flag(d: Conn, k: RequestKind): SetupState {
    match k
    case AuthReq => d.auth
    case SelectReq => d.selectDb
    case _ => d.slots
  }

  predicate Wanted(cfg: Config, k: RequestKind) {
    match k
    case AuthReq => cfg.authenticate
    case SelectReq => cfg.selectDb
    case _ => true
  }

  predicate Accepts(k: RequestKind, r: Reply) {
    match k
    case AuthReq => !r.error
    case SelectReq => r.ok
    case SlotsReq => r.shards != []
    case _ => true
  }

  /** The event is an accepting reply to a request of kind k on connection c. */
  predicate AcceptedIn(s: Cluster, e: Event, c: nat, k: RequestKind) {
    && e.Replied? && e.c == c && c < |s.conns|
    && s.conns[c].pipeline != [] && s.conns[c].pipeline[0].kind == k && Accepts(k, e.r)
  }

  predicate Live(s: Cluster, c: nat) {
    c < |s.conns| && !s.conns[c].state.Disconnected?
  }

  /** Since connection c was last opened, a request of kind k has been accepted on it. */
  predicate AcceptedSince(cfg: Config, s: Cluster, events: seq<Event>, c: nat, k: RequestKind)
    decreases |events|
  {
    events != [] &&
    match (Run(cfg, s, events[..|events| - 1]), Run(cfg, s, events))
    case (Some(t), Some(u)) =>
      || AcceptedIn(t, events[|events| - 1], c, k)
      || (Live(t, c) && Live(u, c) && AcceptedSince(cfg, s, events[..|events| - 1], c, k))
    case _ => false
  }

  /** cluster_client::connect with the setup its options ask for. */
  predicate Begins(cfg: Config, s: Cluster) {
    Initial(s) && FreshFlags(cfg, s.conns[0])
  }

  lemma SetupFlags(d: Conn)
    ensures var t := SendSetup(d);
            && t.state == d.state
            && (t.auth.SetupDone? <==> d.auth.SetupDone?) && (t.selectDb.SetupDone? <==> d.selectDb.SetupDone?)
            && (t.slots.SetupDone? <==> d.slots.SetupDone?)
  {
  }

  /** A key search may change the slots state of the asking connection, nothing else of any connection. */
  predicate OnlySlots(s: Cluster, c: nat, t: Cluster) {
    && |t.conns| == |s.conns|
    && forall d :: 0 <= d < |s.conns| ==>
         t.conns[d] == s.conns[d] || (d == c && t.conns[d] == s.conns[d].(slots := NotSent))
  }

  lemma KeyFlags(cfg: Config, s: Cluster, c: nat, keys: seq<nat>)
    requires WellFormed(s) && c < |s.conns|
    ensures var r := GetKey(cfg, s, c, keys); !r.Unfinished? ==> OnlySlots(s, c, r.s)
  {
    var n := KeysComeInOrder(cfg, s, c, keys);
    hide GetKey, Dealt, WellFormed, Elsewhere, Unreachable;
  }

  lemma CreateFlags(cfg: Config, s: Cluster, c: nat, keys: seq<nat>, d: nat)
    requires WellFormed(s) && c < |s.conns| && Create(cfg, s, c, keys).Some? && d < |s.conns|
    ensures var t := Create(cfg, s, c, keys).value;
            && |t.conns| == |s.conns|
            && t.conns[d].auth == s.conns[d].auth && t.conns[d].selectDb == s.conns[d].selectDb
            && t.conns[d].state == s.conns[d].state
            && (t.conns[d].slots == s.conns[d].slots || (d == c && t.conns[d].slots.NotSent?))
  {
    KeyFlags(cfg, s, c, keys);
    hide GetKey, WellFormed;
  }

  /** What one step does to the authentication and database states. */
  lemma FlagStep(cfg: Config, s: Cluster, e: Event, c: nat, k: RequestKind)
    requires WellFormed(s) && Enabled(cfg, s, e) && (k.AuthReq? || k.SelectReq?)
    ensures FlagFollows(cfg, s, e, Next(cfg, s, e), c, k)
  {
    hide Create, HandleReply, SendSetup, WellFormed;
    match e
    case ConnectionUp(d) =>
    case ConnectionDown(d) =>
    case SetupSent(d) => SetupFlags(s.conns[d]);
    case Created(d, keys) =>
      if c < |s.conns| {
        CreateFlags(cfg, s, d, keys, c);
      } else {
        CreateFlags(cfg, s, d, keys, d);
      }
    case Replied(d, r) => ReplyFlags(cfg, s, d, r, c, k);
  }

  /** The state of k on connection c after a reply on connection d. */
  predicate FlagFollows(cfg: Config, s: Cluster, e: Event, t: Cluster, c: nat, k: RequestKind) {
    && |s.conns| <= |t.conns|
    && (Live(t, c) ==>
          (Flag(t.conns[c], k).SetupDone? <==>
           if AcceptedIn(s, e, c, k) then true
           else if Live(s, c) then Flag(s.conns[c], k).SetupDone?
           else !Wanted(cfg, k)))
  }

  lemma ReplyFlags(cfg: Config, s: Cluster, d: nat, r: Reply, c: nat, k: RequestKind)
    requires WellFormed(s) && d < |s.conns| && s.conns[d].pipeline != [] && s.conns[d].state.Connected?
    requires k.AuthReq? || k.SelectReq?
    ensures FlagFollows(cfg, s, Replied(d, r), HandleReply(cfg, s, d, r), c, k)
  {
    if s.conns[d].pipeline[0].kind.SlotsReq? {
      SlotsReplyFlags(cfg, s, d, r, c, k);
    } else {
      hide WellFormed, HandleSlots;
    }
  }

  lemma SlotsReplyFlags(cfg: Config, s: Cluster, d: nat, r: Reply, c: nat, k: RequestKind)
    requires WellFormed(s) && d < |s.conns| && s.conns[d].pipeline != [] && s.conns[d].state.Connected?
    requires s.conns[d].pipeline[0].kind.SlotsReq? && (k.AuthReq? || k.SelectReq?)
    ensures FlagFollows(cfg, s, Replied(d, r), HandleReply(cfg, s, d, r), c, k)
  {
    var t, h := SlotsReplyIs(cfg, s, d, r);
    if c < |h.conns| {
      SlotsFresh(cfg, t, r.shards, c);
    }
    hide HandleReply, HandleSlots, WellFormed;
  }

  /** The state after a reply to CLUSTER SLOTS, in two steps. */
  lemma SlotsReplyIs(cfg: Config, s: Cluster, d: nat, r: Reply) returns (t: Cluster, h: Cluster)
    requires WellFormed(s) && d < |s.conns| && s.conns[d].pipeline != [] && s.conns[d].pipeline[0].kind.SlotsReq?
    ensures t == SetConn(s, d, Pop(s.conns[d])) && WellFormed(t)
    ensures h == HandleSlots(cfg, t, r.shards) && |t.conns| <= |h.conns| == |h.pools|
    ensures HandleReply(cfg, s, d, r) == if r.shards == [] then t else SetConn(h, d, h.conns[d].(slots := SetupDone))
  {
    PopInFlight(s, d);
    t := SetConn(s, d, Pop(s.conns[d]));
    h := HandleSlots(cfg, t, r.shards);
    hide HandleSlots;
    HandleSlotsKeeps(cfg, t, r.shards);
  }

  /** A live connection is through with authentication, or with selecting its database, exactly if it need not or
      has been accepted since it was opened. */
  lemma {:induction false} SetupLaw(cfg: Config, s: Cluster, events: seq<Event>, c: nat, k: RequestKind)
    requires Begins(cfg, s) && Run(cfg, s, events).Some? && (k.AuthReq? || k.SelectReq?)
    ensures var t := Run(cfg, s, events).value;
            Live(t, c) ==> (Flag(t.conns[c], k).SetupDone? <==> !Wanted(cfg, k) || AcceptedSince(cfg, s, events, c, k))
    decreases |events|
  {
    hide Enabled, Next, WellFormed, Flag;
    if events == [] {
      FreshFlag(cfg, s.conns[0], k);
    } else {
      var front, e := events[..|events| - 1], events[|events| - 1];
      SetupLaw(cfg, s, front, c, k);
      RunKeepsInvariant(cfg, s, front);
      FlagStep(cfg, Run(cfg, s, front).value, e, c, k);
    }
  }

  lemma FreshFlag(cfg: Config, d: Conn, k: RequestKind)
    requires FreshFlags(cfg, d) && (k.AuthReq? || k.SelectReq?)
    ensures Flag(d, k).SetupDone? <==> !Wanted(cfg, k)
  {
  }

  /** No request is created on a connection before its authentication has been accepted and its database selected, as
      far as the options ask for them. */
  lemma DataAfterSetup(cfg: Config, s: Cluster, events: seq<Event>, c: nat, keys: seq<nat>)
    requires Begins(cfg, s) && Run(cfg, s, events + [Created(c, keys)]).Some?
    ensures cfg.authenticate ==> AcceptedSince(cfg, s, events, c, AuthReq)
    ensures cfg.selectDb ==> AcceptedSince(cfg, s, events, c, SelectReq)
  {
    var all := events + [Created(c, keys)];
    assert all[..|all| - 1] == events;
    SetupLaw(cfg, s, events, c, AuthReq);
    SetupLaw(cfg, s, events, c, SelectReq);
    hide Run, AcceptedSince, Create;
  }

  // ----- MOVED -----

  /** A connection that has to learn the slots anew has no keys pooled for it. */
  predicate StalePoolsEmpty(s: Cluster) {
    |s.pools| == |s.conns| && forall c :: 0 <= c < |s.conns| && !s.conns[c].slots.SetupDone? ==> s.pools[c] == []
  }

  /** A MOVED reply: the pool of its connection is thrown away, the connection has to ask for the slots, and nothing
      else changes but the count of replies. */
  lemma MovedAsksAgain(cfg: Config, s: Cluster, c: nat, r: Reply)
    requires WellFormed(s) && StalePoolsEmpty(s) && c < |s.conns| && s.conns[c].pipeline != []
    requires IsData(s.conns[c].pipeline[0]) && r.error && r.moved
    ensures var t := HandleReply(cfg, s, c, r);
            && |t.conns| == |s.conns| && !t.conns[c].slots.SetupDone? && t.pools == s.pools[c := []]
            && (s.conns[c].slots.SetupDone? ==> t.conns[c].slots.NotSent?)
            && t.discarded == s.discarded + |s.pools[c]| && t.processed == s.processed + 1
            && t.slotMap == s.slotMap && t.generated == s.generated
            && forall d :: 0 <= d < |s.conns| && d != c ==> t.conns[d] == s.conns[d]
  {
    hide WellFormed;
    assert |s.conns| == |s.pools|;
    assert !s.conns[c].slots.SetupDone? ==> s.pools == s.pools[c := []];
  }

  /** Every other reply leaves the pools and the slots states alone, unless it brings slots. */
  lemma OtherRepliesKeepPools(cfg: Config, s: Cluster, c: nat, r: Reply)
    requires |s.conns| == |s.pools| && c < |s.conns| && s.conns[c].pipeline != []
    requires !AcceptedIn(s, Replied(c, r), c, SlotsReq) && !(IsData(s.conns[c].pipeline[0]) && r.error && r.moved)
    ensures var t := HandleReply(cfg, s, c, r);
            && t.pools == s.pools && t.discarded == s.discarded && |t.conns| == |s.conns|
            && forall d :: 0 <= d < |s.conns| ==> t.conns[d].slots == s.conns[d].slots
  {
  }

  /** A connection to be set up asks for the slots once, last of its setup commands. */
  lemma SetupAsksForSlots(d: Conn)
    ensures d.slots.NotSent? ==> SendSetup(d).slots.Sent? && SendSetup(d).pipeline != []
    ensures d.slots.NotSent? ==> SendSetup(d).pipeline[|SendSetup(d).pipeline| - 1] == Request(SlotsReq, 0)
    ensures !d.slots.NotSent? ==> SendSetup(d).slots == d.slots
    ensures |SendSetup(d).pipeline| - |d.pipeline|
         == (if d.auth.NotSent? then 1 else 0) + (if d.selectDb.NotSent? then 1 else 0)
          + (if d.slots.NotSent? then 1 else 0)
    ensures d.auth.NotSent? ==> |d.pipeline| < |SendSetup(d).pipeline| &&
                                SendSetup(d).pipeline[|d.pipeline|] == Request(AuthReq, 0)
  {
  }

  lemma {:induction false} ApplyAllSlots(cfg: Config, s: Cluster, shards: seq<Shard>, i: nat)
    requires WellFormed(s) && i < |ApplyAll(cfg, s, shards).conns|
    ensures var d := ApplyAll(cfg, s, shards).conns[i];
            d.slots.SetupDone? || (i < |s.conns| && d.slots == s.conns[i].slots)
    decreases |shards|
  {
    if shards != [] {
      hide Apply, Balanced;
      var front, e := shards[..|shards| - 1], shards[|shards| - 1];
      var m := ApplyAll(cfg, s, front);
      ApplyAllKeeps(cfg, s, front);
      ApplyKeeps(cfg, m, e);
      ApplySlots(cfg, m, e, i);
      if i < |m.conns| {
        ApplyAllSlots(cfg, s, front, i);
      }
    }
  }

  lemma ApplySlots(cfg: Config, s: Cluster, e: Shard, i: nat)
    requires WellFormed(s) && i < |Apply(cfg, s, e).conns|
    ensures var d := Apply(cfg, s, e).conns[i]; d.slots.SetupDone? || (i < |s.conns| && d.slots == s.conns[i].slots)
  {
    hide InFlight, Pooled;
  }

  lemma SlotsStale(cfg: Config, s: Cluster, shards: seq<Shard>)
    requires WellFormed(s) && StalePoolsEmpty(s)
    ensures StalePoolsEmpty(HandleSlots(cfg, s, shards))
  {
    hide ApplyAll, Named;
    var t := ApplyAll(cfg, s, shards);
    ApplyAllKeeps(cfg, s, shards);
    ApplyAllShrinksPools(cfg, s, shards);
    var h := HandleSlots(cfg, s, shards);
    forall c | 0 <= c < |h.conns| && !h.conns[c].slots.SetupDone? ensures h.pools[c] == [] {
      ApplyAllSlots(cfg, s, shards, c);
    }
  }

  lemma CreateStale(cfg: Config, s: Cluster, c: nat, keys: seq<nat>)
    requires WellFormed(s) && StalePoolsEmpty(s) && c < |s.conns| && Create(cfg, s, c, keys).Some?
    ensures StalePoolsEmpty(Create(cfg, s, c, keys).value)
  {
    KeyStale(cfg, s, c, keys);
    hide GetKey, WellFormed;
  }

  lemma KeyStale(cfg: Config, s: Cluster, c: nat, keys: seq<nat>)
    requires WellFormed(s) && StalePoolsEmpty(s) && c < |s.conns|
    ensures var r := GetKey(cfg, s, c, keys); !r.Unfinished? ==> StalePoolsEmpty(r.s)
  {
    var n := KeysComeInOrder(cfg, s, c, keys);
    if s.pools[c] == [] && !GetKey(cfg, s, c, keys).Unfinished? {
      NoneForItself(cfg, s, c, keys[..n]);
      DealtStale(cfg, s, c, keys[..n], GetKey(cfg, s, c, keys).s);
    }
  }

  /** Keys that belong elsewhere give the asking connection nothing. */
  lemma {:induction false} NoneForItself(cfg: Config, s: Cluster, c: nat, keys: seq<nat>)
    requires WellFormed(s) && forall i :: 0 <= i < |keys| ==> Elsewhere(cfg, s, c, keys[i])
    ensures KeysOf(cfg, s.slotMap, keys, c) == []
    decreases |keys|
  {
    if keys != [] {
      assert Elsewhere(cfg, s, c, keys[0]);
      forall i | 0 <= i < |keys[1..]| ensures Elsewhere(cfg, s, c, keys[1..][i]) {
        assert keys[1..][i] == keys[i + 1];
      }
      NoneForItself(cfg, s, c, keys[1..]);
    }
  }

  lemma DealtStale(cfg: Config, s: Cluster, c: nat, keys: seq<nat>, t: Cluster)
    requires WellFormed(s) && StalePoolsEmpty(s) && c < |s.conns| && s.pools[c] == []
    requires KeysOf(cfg, s.slotMap, keys, c) == [] && Dealt(cfg, s, keys, t) && OnlySlots(s, c, t)
    ensures StalePoolsEmpty(t)
  {
    assert |s.pools| == |s.conns| && |s.slotMap| == SLOTS;
    hide KeysOf, WellFormed;
    forall d | 0 <= d < |t.conns| && !t.conns[d].slots.SetupDone? ensures t.pools[d] == [] {
      assert s.pools[d] == [] && Share(cfg, s, keys, d) == [];
    }
  }

  lemma NextStale(cfg: Config, s: Cluster, e: Event)
    requires WellFormed(s) && StalePoolsEmpty(s) && Enabled(cfg, s, e)
    ensures StalePoolsEmpty(Next(cfg, s, e))
  {
    hide Create, HandleReply, SendSetup, WellFormed;
    match e
    case ConnectionUp(d) =>
    case ConnectionDown(d) =>
    case SetupSent(d) => SetupFlags(s.conns[d]);
    case Created(d, keys) => CreateStale(cfg, s, d, keys);
    case Replied(d, r) =>
      if AcceptedIn(s, e, d, SlotsReq) {
        var t, h := SlotsReplyIs(cfg, s, d, r);
        SlotsStale(cfg, t, r.shards);
      } else if IsData(s.conns[d].pipeline[0]) && r.error && r.moved {
        MovedAsksAgain(cfg, s, d, r);
      } else {
        OtherRepliesKeepPools(cfg, s, d, r);
      }
  }

  /** Over every run: keys are pooled only for connections that know the slots. */
  lemma {:induction false} PoolsKnowSlots(cfg: Config, s: Cluster, events: seq<Event>)
    requires Initial(s) && Run(cfg, s, events).Some?
    ensures StalePoolsEmpty(Run(cfg, s, events).value)
    decreases |events|
  {
    hide Enabled, Next, WellFormed;
    if events != [] {
      var front := events[..|events| - 1];
      PoolsKnowSlots(cfg, s, front);
      RunKeepsInvariant(cfg, s, front);
      NextStale(cfg, Run(cfg, s, front).value, events[|events| - 1]);
    }
  }

  /** A MOVED reply came in on connection c, and since then no slots have come in on it and it was not closed. */
  predicate AwaitsSlots(cfg: Config, s: Cluster, events: seq<Event>, c: nat)
    decreases |events|
  {
    events != [] &&
    match (Run(cfg, s, events[..|events| - 1]), Run(cfg, s, events))
    case (Some(t), Some(u)) =>
      var e := events[|events| - 1];
      && Live(u, c) && !AcceptedIn(t, e, c, SlotsReq)
      && (AwaitsSlots(cfg, s, events[..|events| - 1], c) || IsMoved(t, e, c))
    case _ => false
  }

  predicate IsMoved(s: Cluster, e: Event, c: nat) {
    && e.Replied? && e.c == c && c < |s.conns| && s.conns[c].pipeline != [] && IsData(s.conns[c].pipeline[0])
    && e.r.error && e.r.moved
  }

  lemma StillAwaits(cfg: Config, s: Cluster, e: Event, c: nat)
    requires WellFormed(s) && StalePoolsEmpty(s) && Enabled(cfg, s, e) && Live(Next(cfg, s, e), c) && Live(s, c)
    requires !AcceptedIn(s, e, c, SlotsReq) && (IsMoved(s, e, c) || !s.conns[c].slots.SetupDone?)
    ensures !Next(cfg, s, e).conns[c].slots.SetupDone?
  {
    hide Create, HandleReply, SendSetup, WellFormed;
    match e
    case ConnectionUp(d) =>
    case ConnectionDown(d) =>
    case SetupSent(d) => SetupFlags(s.conns[d]);
    case Created(d, keys) => CreateFlags(cfg, s, d, keys, c);
    case Replied(d, r) =>
      if AcceptedIn(s, e, d, SlotsReq) {
        var t, h := SlotsReplyIs(cfg, s, d, r);
        SlotsFresh(cfg, t, r.shards, c);
      } else if IsData(s.conns[d].pipeline[0]) && r.error && r.moved {
        MovedAsksAgain(cfg, s, d, r);
      } else {
        OtherRepliesKeepPools(cfg, s, d, r);
      }
  }

  lemma {:induction false} AwaitsLaw(cfg: Config, s: Cluster, events: seq<Event>, c: nat)
    requires Initial(s) && Run(cfg, s, events).Some? && AwaitsSlots(cfg, s, events, c)
    ensures var t := Run(cfg, s, events).value; Live(t, c) && !t.conns[c].slots.SetupDone?
    decreases |events|
  {
    hide Enabled, Next, WellFormed, StalePoolsEmpty;
    var front, e := events[..|events| - 1], events[|events| - 1];
    RunKeepsInvariant(cfg, s, front);
    PoolsKnowSlots(cfg, s, front);
    var t := Run(cfg, s, front).value;
    if AwaitsSlots(cfg, s, front, c) {
      AwaitsLaw(cfg, s, front, c);
    } else {
      MovedIsLive(cfg, t, e, c);
    }
    StillAwaits(cfg, t, e, c);
  }

  lemma MovedIsLive(cfg: Config, s: Cluster, e: Event, c: nat)
    requires WellFormed(s) && Enabled(cfg, s, e) && IsMoved(s, e, c)
    ensures Live(s, c)
  {
  }

  /** After a MOVED reply nothing more is created on the connection until it has been told the slots again, and its
      pool stays empty. */
  lemma NoDataUntilSlots(cfg: Config, s: Cluster, events: seq<Event>, c: nat, keys: seq<nat>)
    requires Initial(s) && Run(cfg, s, events).Some? && AwaitsSlots(cfg, s, events, c)
    ensures Run(cfg, s, events + [Created(c, keys)]).None?
    ensures var t := Run(cfg, s, events).value; c < |t.pools| && t.pools[c] == []
  {
    AwaitsLaw(cfg, s, events, c);
    PoolsKnowSlots(cfg, s, events);
    var all := events + [Created(c, keys)];
    assert all[..|all| - 1] == events && all[|all| - 1] == Created(c, keys);
    hide AwaitsSlots, Create, Next;
  }
}
