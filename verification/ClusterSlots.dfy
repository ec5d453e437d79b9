/** cluster_client::handle_cluster_slots: the reply to CLUSTER SLOTS updates connections and slot map. */
module ClusterSlots {
  import opened ByteStrings
  import opened ClusterState

  /** How the attempt to connect to a server goes, as far as the call itself can tell. */
  datatype Attempt = Started | ResolveError | SocketError | ConnectError

  /** One shard of the reply; `attempt` is the environment's answer should it be connected to. */
  datatype Shard = Shard(minSlot: int, maxSlot: int, address: Bytes, port: Bytes, attempt: Attempt)

  /** Slot numbers are those of the cluster. */
  predicate InRange(shards: seq<Shard>) {
    forall k :: 0 <= k < |shards| ==> 0 <= shards[k].minSlot && shards[k].maxSlot < SLOTS
  }

  predicate Covers(e: Shard, j: int) {
    e.minSlot <= j <= e.maxSlot
  }

  /** Position of the first connection to a server, or the number of connections. */
  function Find(conns: seq<Conn>, address: Bytes, port: Bytes): (j: nat)
    ensures j <= |conns|
    ensures j < |conns| ==> SameServer(conns[j], address, port)
    ensures forall i :: 0 <= i < j ==> !SameServer(conns[i], address, port)
  {
    if conns == [] || SameServer(conns[0], address, port) then 0
    else
      var j := Find(conns[1..], address, port);
      assert forall i :: 1 <= i < j + 1 ==> conns[i] == conns[1..][i - 1];
      j + 1
  }

  // ----- the pieces of the source -----

  /** shard_connection::connect */
  function ConnectConn(cfg: Config, c: Conn, attempt: Attempt): (r: Conn)
    ensures r.id == c.id && SameServer(r, c.address, c.port) && r.pipeline == c.pipeline && r.pending == c.pending
  {
    var d := c.(auth := if cfg.authenticate then NotSent else SetupDone,
                selectDb := if cfg.selectDb then NotSent else SetupDone);
    match attempt
    case Started => d.(state := InProgress)
    case ResolveError => c
    case SocketError => d
    case ConnectError => Disconnect(d)
  }

  /** connect_shard_connection: the pool is emptied first. */
  function ConnectShard(cfg: Config, s: Cluster, i: nat, e: Shard): Cluster
    requires i < |s.conns| && i < |s.pools|
  {
    s.(pools := s.pools[i := []],
       discarded := s.discarded + |s.pools[i]|,
       conns := s.conns[i := ConnectConn(cfg, s.conns[i].(address := e.address, port := e.port), e.attempt)])
  }

  /** create_shard_connection */
  function CreateShard(s: Cluster, e: Shard): Cluster {
    s.(conns := s.conns + [Conn(|s.conns|, e.address, e.port, Disconnected, SetupDone, SetupDone, SetupDone, [], 0)],
       pools := s.pools + [[]])
  }

  /** The connection for a shard: an existing one, reconnected if need be, or a new one. */
  function Reach(cfg: Config, s: Cluster, e: Shard): Cluster
    requires |s.pools| == |s.conns|
  {
    var j := Find(s.conns, e.address, e.port);
    if j == |s.conns| then ConnectShard(cfg, CreateShard(s, e), j, e)
    else if s.conns[j].state.Disconnected? then ConnectShard(cfg, s, j, e)
    else s
  }

  /** m_slot_to_shard over a range of slots. */
  function Assign(slotMap: seq<nat>, e: Shard, id: nat): (m: seq<nat>)
    ensures |m| == |slotMap|
    ensures forall j :: 0 <= j < |m| ==> m[j] == if Covers(e, j) then id else slotMap[j]
  {
    seq(|slotMap|, j requires 0 <= j < |slotMap| => if Covers(e, j) then id else slotMap[j])
  }

  /** One turn of the loop over the reply. */
  function Apply(cfg: Config, s: Cluster, e: Shard): Cluster
    requires |s.pools| == |s.conns|
  {
    var j := Find(s.conns, e.address, e.port);
    var t := Reach(cfg, s, e);
    t.(slotMap := Assign(t.slotMap, e, j))
  }

  predicate Named(c: Conn, shards: seq<Shard>) {
    exists k :: 0 <= k < |shards| && SameServer(c, shards[k].address, shards[k].port)
  }

  function ApplyAll(cfg: Config, s: Cluster, shards: seq<Shard>): (t: Cluster)
    requires |s.pools| == |s.conns|
    ensures |t.pools| == |t.conns|
    decreases |shards|
  {
    if shards == [] then s
    else Apply(cfg, ApplyAll(cfg, s, shards[..|shards| - 1]), shards[|shards| - 1])
  }

  /** Connections that were there before and are not in the reply are closed. */
  function CloseUnused(conns: seq<Conn>, prev: nat, shards: seq<Shard>): (r: seq<Conn>)
    ensures |r| == |conns|
    ensures forall i :: 0 <= i < |conns| ==>
              r[i] == if i < prev && !Named(conns[i], shards) && !conns[i].state.Disconnected?
                      then Disconnect(conns[i]) else conns[i]
  {
    seq(|conns|, i requires 0 <= i < |conns| =>
      if i < prev && !Named(conns[i], shards) && !conns[i].state.Disconnected?
      then Disconnect(conns[i]) else conns[i])
  }

  /** handle_cluster_slots */
  function HandleSlots(cfg: Config, s: Cluster, shards: seq<Shard>): Cluster
    requires |s.pools| == |s.conns|
  {
    var t := ApplyAll(cfg, s, shards);
    t.(conns := CloseUnused(t.conns, |s.conns|, shards))
  }

  // ----- what it keeps -----

  /** Connections keep their place and their server. */
  predicate SameServers(s: seq<Conn>, t: seq<Conn>) {
    |s| <= |t| && forall i :: 0 <= i < |s| ==> SameServer(t[i], s[i].address, s[i].port)
  }

  /** They also keep their queued requests, and new ones have none. */
  predicate Extends(s: seq<Conn>, t: seq<Conn>) {
    && SameServers(s, t)
    && (forall i :: 0 <= i < |s| ==> t[i].pipeline == s[i].pipeline)
    && (forall i :: |s| <= i < |t| ==> t[i].pipeline == [])
  }

  /** No request moves: what leaves a pool is discarded. */
  predicate Balanced(s: Cluster, t: Cluster) {
    && InFlight(t.conns) == InFlight(s.conns)
    && Pooled(t.pools) + t.discarded == Pooled(s.pools) + s.discarded
    && t.generated == s.generated && t.processed == s.processed
    && t.setCount == s.setCount && t.getCount == s.getCount && t.totSet == s.totSet && t.totWait == s.totWait
  }

  predicate Keeps(s: Cluster, t: Cluster) {
    WellFormed(t) && Extends(s.conns, t.conns) && Balanced(s, t)
  }

  lemma CreateKeeps(s: Cluster, e: Shard)
    requires WellFormed(s) && Find(s.conns, e.address, e.port) == |s.conns|
    ensures Keeps(s, CreateShard(s, e))
  {
    var t := CreateShard(s, e);
    InFlightSnoc(s.conns, t.conns[|s.conns|]);
    PooledSnoc(s.pools, []);
  }

  lemma ConnectKeeps(cfg: Config, s: Cluster, i: nat, e: Shard)
    requires WellFormed(s) && i < |s.conns| && SameServer(s.conns[i], e.address, e.port)
    ensures Keeps(s, ConnectShard(cfg, s, i, e))
  {
    hide ConnectConn, InFlight, Pooled;
    var t := ConnectShard(cfg, s, i, e);
    InFlightUpdate(s.conns, i, t.conns[i]);
    PooledUpdate(s.pools, i, []);
  }

  lemma ReachKeeps(cfg: Config, s: Cluster, e: Shard)
    requires WellFormed(s)
    ensures var j := Find(s.conns, e.address, e.port);
            var t := Reach(cfg, s, e);
            && Keeps(s, t) && j < |t.conns| && SameServer(t.conns[j], e.address, e.port)
            && t.slotMap == s.slotMap
  {
    var j := Find(s.conns, e.address, e.port);
    if j == |s.conns| {
      CreateKeeps(s, e);
      ConnectKeeps(cfg, CreateShard(s, e), j, e);
    } else if s.conns[j].state.Disconnected? {
      ConnectKeeps(cfg, s, j, e);
    }
  }

  lemma ApplyKeeps(cfg: Config, s: Cluster, e: Shard)
    requires WellFormed(s)
    ensures var j := Find(s.conns, e.address, e.port);
            var t := Apply(cfg, s, e);
            && Keeps(s, t) && j < |t.conns| && SameServer(t.conns[j], e.address, e.port)
            && t.slotMap == Assign(s.slotMap, e, j)
  {
    ReachKeeps(cfg, s, e);
  }

  lemma {:induction false} ApplyAllKeeps(cfg: Config, s: Cluster, shards: seq<Shard>)
    requires WellFormed(s)
    ensures Keeps(s, ApplyAll(cfg, s, shards))
    decreases |shards|
  {
    if shards != [] {
      var front := shards[..|shards| - 1];
      ApplyAllKeeps(cfg, s, front);
      ApplyKeeps(cfg, ApplyAll(cfg, s, front), shards[|shards| - 1]);
    }
  }

  lemma {:induction false} ClosingKeepsRequests(conns: seq<Conn>, closed: seq<Conn>)
    requires |closed| == |conns| && forall i :: 0 <= i < |conns| ==> closed[i].pipeline == conns[i].pipeline
    ensures InFlight(closed) == InFlight(conns)
    decreases |conns|
  {
    if conns != [] {
      ClosingKeepsRequests(conns[1..], closed[1..]);
    }
  }

  /** A reply to CLUSTER SLOTS keeps the client well formed, keeps every existing connection in its place
      and loses no request without counting it. */
  lemma HandleSlotsKeeps(cfg: Config, s: Cluster, shards: seq<Shard>)
    requires WellFormed(s)
    ensures Keeps(s, HandleSlots(cfg, s, shards))
  {
    hide ApplyAll, Named, InFlight, Pooled;
    ApplyAllKeeps(cfg, s, shards);
    var t := ApplyAll(cfg, s, shards);
    ClosingKeepsRequests(t.conns, CloseUnused(t.conns, |s.conns|, shards));
  }

  // ----- the slot map -----

  /** The last shard of the reply whose range holds slot j. */
  function LastCover(shards: seq<Shard>, j: int): (k: Option<nat>)
    ensures k.Some? ==> k.value < |shards| && Covers(shards[k.value], j)
    ensures k.Some? ==> forall i :: k.value < i < |shards| ==> !Covers(shards[i], j)
    ensures k.None? ==> forall i :: 0 <= i < |shards| ==> !Covers(shards[i], j)
    decreases |shards|
  {
    if shards == [] then None
    else if Covers(shards[|shards| - 1], j) then Some(|shards| - 1)
    else LastCover(shards[..|shards| - 1], j)
  }

  /** Slot j leads to the server of the last shard covering it; uncovered slots stay. */
  predicate Maps(s: Cluster, t: Cluster, shards: seq<Shard>, j: nat)
    requires j < |s.slotMap| == |t.slotMap|
  {
    match LastCover(shards, j)
    case None => t.slotMap[j] == s.slotMap[j]
    case Some(k) =>
      t.slotMap[j] < |t.conns| && SameServer(t.conns[t.slotMap[j]], shards[k].address, shards[k].port)
  }

  lemma {:induction false} ApplyAllMaps(cfg: Config, s: Cluster, shards: seq<Shard>, j: nat)
    requires WellFormed(s) && j < SLOTS
    ensures |ApplyAll(cfg, s, shards).slotMap| == SLOTS
    ensures Maps(s, ApplyAll(cfg, s, shards), shards, j)
    decreases |shards|
  {
    hide Apply, Balanced;
    if shards != [] {
      var front := shards[..|shards| - 1];
      var m := ApplyAll(cfg, s, front);
      ApplyAllMaps(cfg, s, front, j);
      ApplyAllKeeps(cfg, s, front);
      ApplyKeeps(cfg, m, shards[|shards| - 1]);
    }
  }

  /** handle_cluster_slots refines a map update: every slot of the reply leads to the connection of the last
      shard covering it, every other slot is as before. */
  lemma HandleSlotsMaps(cfg: Config, s: Cluster, shards: seq<Shard>, j: nat)
    requires WellFormed(s) && j < SLOTS
    ensures |HandleSlots(cfg, s, shards).slotMap| == SLOTS
    ensures Maps(s, HandleSlots(cfg, s, shards), shards, j)
  {
    hide ApplyAll;
    ApplyAllMaps(cfg, s, shards, j);
  }

  // ----- which connections are closed -----

  /** Some entry of the reply for this server gets its connection attempt under way. */
  predicate Tried(c: Conn, shards: seq<Shard>) {
    exists k :: 0 <= k < |shards| && SameServer(c, shards[k].address, shards[k].port) && shards[k].attempt.Started?
  }

  lemma NamedSnoc(c: Conn, shards: seq<Shard>)
    requires shards != []
    ensures var front, e := shards[..|shards| - 1], shards[|shards| - 1];
            && (Named(c, shards) <==> Named(c, front) || SameServer(c, e.address, e.port))
            && (Tried(c, shards) <==> Tried(c, front) || (SameServer(c, e.address, e.port) && e.attempt.Started?))
            && (Tried(c, front) ==> Named(c, front))
  {
    var front := shards[..|shards| - 1];
    assert forall k :: 0 <= k < |front| ==> front[k] == shards[k];
  }

  lemma NamedByServer(c: Conn, d: Conn, shards: seq<Shard>)
    requires SameServer(c, d.address, d.port)
    ensures (Named(c, shards) <==> Named(d, shards)) && (Tried(c, shards) <==> Tried(d, shards))
  {
  }

  /** What the loop over the reply makes of a connection: only one that was not live, or is new, is touched, and
      then it ends up live exactly if some attempt to reach its server got under way. */
  predicate Touched(s: Cluster, t: Cluster, shards: seq<Shard>, i: nat)
    requires i < |t.conns|
  {
    if i < |s.conns| && (!s.conns[i].state.Disconnected? || !Named(s.conns[i], shards)) then t.conns[i] == s.conns[i]
    else Named(t.conns[i], shards) && (t.conns[i].state.Disconnected? <==> !Tried(t.conns[i], shards))
  }

  lemma ApplyOne(cfg: Config, s: Cluster, e: Shard, i: nat)
    requires WellFormed(s) && i < |Apply(cfg, s, e).conns|
    ensures var d := Apply(cfg, s, e).conns[i];
            if i < |s.conns| && (!s.conns[i].state.Disconnected? || !SameServer(s.conns[i], e.address, e.port))
            then d == s.conns[i]
            else SameServer(d, e.address, e.port) && (d.state.Disconnected? <==> !e.attempt.Started?)
  {
    hide InFlight, Pooled;
  }

  lemma {:induction false} ApplyAllTouches(cfg: Config, s: Cluster, shards: seq<Shard>, i: nat)
    requires WellFormed(s) && i < |ApplyAll(cfg, s, shards).conns|
    ensures Touched(s, ApplyAll(cfg, s, shards), shards, i)
    decreases |shards|
  {
    if shards != [] {
      hide Apply, Named, Tried, Balanced;
      var front, e := shards[..|shards| - 1], shards[|shards| - 1];
      var m, t := ApplyAll(cfg, s, front), ApplyAll(cfg, s, shards);
      ApplyAllKeeps(cfg, s, front);
      ApplyKeeps(cfg, m, e);
      ApplyOne(cfg, m, e, i);
      NamedSnoc(t.conns[i], shards);
      if i < |m.conns| {
        ApplyAllTouches(cfg, s, front, i);
        NamedSnoc(m.conns[i], shards);
        NamedByServer(m.conns[i], t.conns[i], front);
      }
      if i < |s.conns| {
        NamedSnoc(s.conns[i], shards);
        NamedByServer(s.conns[i], m.conns[i], front);
      } else if i >= |m.conns| {
        NotNamedYet(cfg, s, front, t, i);
      }
    }
  }

  /** A connection made for a later entry is to a server that no earlier entry names. */
  lemma NotNamedYet(cfg: Config, s: Cluster, shards: seq<Shard>, t: Cluster, i: nat)
    requires WellFormed(s) && WellFormed(t) && Extends(ApplyAll(cfg, s, shards).conns, t.conns)
    requires |ApplyAll(cfg, s, shards).conns| <= i < |t.conns|
    ensures !Named(t.conns[i], shards)
  {
    hide ApplyAll, InFlight, Pooled;
    var m := ApplyAll(cfg, s, shards);
    forall k | 0 <= k < |shards| ensures !SameServer(t.conns[i], shards[k].address, shards[k].port) {
      ApplyAllKnows(cfg, s, shards, k);
      assert SameServer(t.conns[Find(m.conns, shards[k].address, shards[k].port)], shards[k].address, shards[k].port);
    }
  }

  /** A live connection that the reply names is left alone, and one it does not name ends up closed.  Any other one,
      those the reply creates included, is named by it and is live exactly if an attempt got under way. */
  lemma HandleSlotsCloses(cfg: Config, s: Cluster, shards: seq<Shard>, i: nat)
    requires WellFormed(s) && i < |HandleSlots(cfg, s, shards).conns|
    ensures var d := HandleSlots(cfg, s, shards).conns[i];
            if i < |s.conns| && !Named(s.conns[i], shards) then d.state.Disconnected?
            else if i < |s.conns| && !s.conns[i].state.Disconnected? then d == s.conns[i]
            else Named(d, shards) && (d.state.Disconnected? <==> !Tried(d, shards))
  {
    hide ApplyAll, Named, Tried;
    ApplyAllTouches(cfg, s, shards, i);
  }

  // ----- replaying a reply -----

  /** The same shards, whatever becomes of the connection attempts. */
  predicate SameTopology(a: seq<Shard>, b: seq<Shard>) {
    |a| == |b| && forall k :: 0 <= k < |a| ==> b[k] == a[k].(attempt := b[k].attempt)
  }

  lemma {:induction false} SameCover(a: seq<Shard>, b: seq<Shard>, j: int)
    requires SameTopology(a, b)
    ensures LastCover(a, j) == LastCover(b, j)
    decreases |a|
  {
    if a != [] {
      SameCover(a[..|a| - 1], b[..|b| - 1], j);
    }
  }

  predicate Known(conns: seq<Conn>, e: Shard) {
    Find(conns, e.address, e.port) < |conns|
  }

  lemma KnownExtends(s: seq<Conn>, t: seq<Conn>, e: Shard)
    requires Extends(s, t) && Known(s, e)
    ensures Known(t, e)
  {
    assert SameServer(t[Find(s, e.address, e.port)], e.address, e.port);
  }

  lemma {:induction false} ApplyAllKnows(cfg: Config, s: Cluster, shards: seq<Shard>, k: nat)
    requires WellFormed(s) && k < |shards|
    ensures Known(ApplyAll(cfg, s, shards).conns, shards[k])
    decreases |shards|
  {
    hide Apply, Balanced;
    var front := shards[..|shards| - 1];
    var m := ApplyAll(cfg, s, front);
    ApplyAllKeeps(cfg, s, front);
    ApplyKeeps(cfg, m, shards[|shards| - 1]);
    if k < |front| {
      ApplyAllKnows(cfg, s, front, k);
      KnownExtends(m.conns, ApplyAll(cfg, s, shards).conns, shards[k]);
    }
  }

  lemma {:induction false} KnownAddsNothing(cfg: Config, s: Cluster, shards: seq<Shard>)
    requires WellFormed(s) && forall k :: 0 <= k < |shards| ==> Known(s.conns, shards[k])
    ensures |ApplyAll(cfg, s, shards).conns| == |s.conns|
    decreases |shards|
  {
    if shards != [] {
      var front := shards[..|shards| - 1];
      KnownAddsNothing(cfg, s, front);
      ApplyAllKeeps(cfg, s, front);
      KnownExtends(s.conns, ApplyAll(cfg, s, front).conns, shards[|shards| - 1]);
    }
  }

  /** Two connections to the same server are one. */
  lemma OneConnectionPerServer(s: Cluster, i: nat, j: nat, address: Bytes, port: Bytes)
    requires WellFormed(s) && i < |s.conns| && j < |s.conns|
    requires SameServer(s.conns[i], address, port) && SameServer(s.conns[j], address, port)
    ensures i == j
  {
  }

  /** Replaying a reply later, in any state that still has the connections it made, changes no slot and
      adds no connection. */
  lemma ReplayKeepsSlot(cfg: Config, s: Cluster, shards: seq<Shard>, again: seq<Shard>, j: nat)
    requires WellFormed(s) && j < SLOTS && SameTopology(shards, again)
    ensures var t := HandleSlots(cfg, s, shards);
            var u := HandleSlots(cfg, t, again);
            |u.slotMap| == |t.slotMap| == SLOTS && u.slotMap[j] == t.slotMap[j]
  {
    hide HandleSlots;
    var t := HandleSlots(cfg, s, shards);
    HandleSlotsKeeps(cfg, s, shards);
    HandleSlotsMaps(cfg, s, shards, j);
    HandleSlotsKeeps(cfg, t, again);
    HandleSlotsMaps(cfg, t, again, j);
    SameCover(shards, again, j);
    var k := LastCover(shards, j);
    if k.Some? {
      var u := HandleSlots(cfg, t, again);
      OneConnectionPerServer(u, t.slotMap[j], u.slotMap[j], shards[k.value].address, shards[k.value].port);
    }
  }

  /** Replaying a reply leaves the slot map and the list of connections as they are. */
  lemma ReplayChangesNothing(cfg: Config, s: Cluster, shards: seq<Shard>, again: seq<Shard>)
    requires WellFormed(s) && SameTopology(shards, again)
    ensures var t := HandleSlots(cfg, s, shards);
            var u := HandleSlots(cfg, t, again);
            && u.slotMap == t.slotMap
            && |u.conns| == |t.conns| && Extends(t.conns, u.conns)
  {
    hide ApplyAll;
    var t := HandleSlots(cfg, s, shards);
    HandleSlotsKeeps(cfg, s, shards);
    HandleSlotsKeeps(cfg, t, again);
    var a := ApplyAll(cfg, s, shards);
    forall k | 0 <= k < |again| ensures Known(t.conns, again[k]) {
      ApplyAllKnows(cfg, s, shards, k);
      ApplyAllKeeps(cfg, s, shards);
      KnownExtends(a.conns, t.conns, again[k]);
    }
    KnownAddsNothing(cfg, t, again);
    forall j | 0 <= j < SLOTS ensures HandleSlots(cfg, t, again).slotMap[j] == t.slotMap[j] {
      ReplayKeepsSlot(cfg, s, shards, again, j);
    }
  }

  // ----- pools and installed topologies -----

  /** A reply puts no key into any pool. */
  predicate PoolsShrink(s: seq<seq<nat>>, t: seq<seq<nat>>) {
    |s| <= |t| && forall i :: 0 <= i < |t| ==> t[i] == [] || (i < |s| && t[i] == s[i])
  }

  lemma {:induction false} ApplyAllShrinksPools(cfg: Config, s: Cluster, shards: seq<Shard>)
    requires WellFormed(s)
    ensures PoolsShrink(s.pools, ApplyAll(cfg, s, shards).pools)
    decreases |shards|
  {
    if shards != [] {
      var front := shards[..|shards| - 1];
      ApplyAllKeeps(cfg, s, front);
      ApplyAllShrinksPools(cfg, s, front);
      ApplyShrinksPools(cfg, ApplyAll(cfg, s, front), shards[|shards| - 1]);
    }
  }

  lemma ApplyShrinksPools(cfg: Config, s: Cluster, e: Shard)
    requires WellFormed(s)
    ensures PoolsShrink(s.pools, Apply(cfg, s, e).pools)
  {
  }

  /** Slot j leads to the server of the reply's last shard covering it. */
  predicate LeadsTo(s: Cluster, shards: seq<Shard>, j: nat) {
    && j < |s.slotMap| && LastCover(shards, j).Some? && s.slotMap[j] < |s.conns|
    && var e := shards[LastCover(shards, j).value]; SameServer(s.conns[s.slotMap[j]], e.address, e.port)
  }

  lemma CoverInstalls(cfg: Config, s: Cluster, shards: seq<Shard>, j: nat)
    requires WellFormed(s) && j < SLOTS && LastCover(shards, j).Some?
    ensures LeadsTo(HandleSlots(cfg, s, shards), shards, j)
  {
    hide HandleSlots;
    HandleSlotsMaps(cfg, s, shards, j);
  }

  lemma LeadsToExtends(s: Cluster, t: Cluster, shards: seq<Shard>, j: nat)
    requires LeadsTo(s, shards, j) && SameServers(s.conns, t.conns)
    requires |t.slotMap| == |s.slotMap| && t.slotMap[j] == s.slotMap[j]
    ensures LeadsTo(t, shards, j)
  {
  }

  /** Every slot is covered by the reply. */
  predicate Full(shards: seq<Shard>) {
    forall j :: 0 <= j < SLOTS ==> LastCover(shards, j).Some?
  }

  /** The slot map is the one the reply describes. */
  predicate Installed(s: Cluster, shards: seq<Shard>) {
    |s.slotMap| == SLOTS && forall j :: 0 <= j < SLOTS ==> LeadsTo(s, shards, j)
  }

  lemma FullReplyInstalls(cfg: Config, s: Cluster, shards: seq<Shard>)
    requires WellFormed(s) && Full(shards)
    ensures Installed(HandleSlots(cfg, s, shards), shards)
  {
    hide HandleSlots, LeadsTo;
    HandleSlotsKeeps(cfg, s, shards);
    forall j | 0 <= j < SLOTS ensures LeadsTo(HandleSlots(cfg, s, shards), shards, j) {
      CoverInstalls(cfg, s, shards, j);
    }
  }

  /** Both replies give slot j to one server, or the later one says nothing about it.  Neither the order of the
      shards nor the cuts of their ranges matter. */
  predicate SameOwner(first: seq<Shard>, later: seq<Shard>, j: nat) {
    LastCover(later, j).Some? ==>
      && LastCover(first, j).Some?
      && var e, f := later[LastCover(later, j).value], first[LastCover(first, j).value];
         e.address == f.address && e.port == f.port
  }

  /** A slot keeps its connection exactly if its server stays the same, whatever else the reply changes. */
  lemma SameOwnerKeepsSlot(cfg: Config, s: Cluster, shards: seq<Shard>, again: seq<Shard>, j: nat)
    requires WellFormed(s) && j < SLOTS && LeadsTo(s, shards, j)
    ensures var t := HandleSlots(cfg, s, again);
            |t.slotMap| == SLOTS && (t.slotMap[j] == s.slotMap[j] <==> SameOwner(shards, again, j))
  {
    hide HandleSlots, Balanced;
    HandleSlotsKeeps(cfg, s, again);
    HandleSlotsMaps(cfg, s, again, j);
    if SameOwner(shards, again, j) && LastCover(again, j).Some? {
      var t, e := HandleSlots(cfg, s, again), again[LastCover(again, j).value];
      OneConnectionPerServer(t, s.slotMap[j], t.slotMap[j], e.address, e.port);
    }
  }
}
