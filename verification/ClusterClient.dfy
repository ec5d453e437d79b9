/** The loops of the cluster client in their own form, proved against the step functions. */
module ClusterClient {
  import opened ByteStrings
  import opened ClusterRun
  import opened ClusterSlots
  import opened ClusterState

  class Client {
    const cfg: Config
    var conns: seq<Conn>
    var pools: seq<seq<nat>>
    const slotToShard: array<nat>
    var generated: nat
    var processed: nat
    var setCount: nat
    var getCount: nat
    var totSet: nat
    var totWait: nat
    ghost var discarded: nat

    ghost function View(): Cluster
      reads this, slotToShard
    {
      Cluster(conns, pools, slotToShard[..], generated, processed, discarded, setCount, getCount, totSet, totWait)
    }

    constructor (cfg: Config, address: Bytes, port: Bytes)
      ensures this.cfg == cfg && fresh(slotToShard)
      ensures Initial(View())
    {
      this.cfg := cfg;
      slotToShard := new nat[SLOTS];
      var auth := if cfg.authenticate then NotSent else SetupDone;
      var db := if cfg.selectDb then NotSent else SetupDone;
      conns := [Conn(0, address, port, InProgress, auth, db, NotSent, [], 0)];
      pools := [[]];
      generated, processed, setCount, getCount, totSet, totWait, discarded := 0, 0, 0, 0, 0, 0, 0;
    }

    /** connect_shard_connection */
    method ConnectShardConnection(i: nat, e: Shard)
      requires i < |conns| == |pools|
      modifies this
      ensures View() == ConnectShard(cfg, old(View()), i, e)
    {
      if |pools[i]| > 0 {
        discarded := discarded + |pools[i]|;
        pools := pools[i := []];
      }
      var c := conns[i].(address := e.address, port := e.port);
      conns := conns[i := ConnectConn(cfg, c, e.attempt)];
      assert pools == old(pools)[i := []];
    }

    /** The search for an existing connection to a server. */
    method FindConnection(e: Shard) returns (j: nat)
      ensures j == Find(conns, e.address, e.port)
    {
      j := 0;
      while j < |conns| && !SameServer(conns[j], e.address, e.port)
        invariant j <= |conns|
        invariant forall i :: 0 <= i < j ==> !SameServer(conns[i], e.address, e.port)
      {
        j := j + 1;
      }
    }

    /** m_slot_to_shard over the range of a shard. */
    method UpdateRange(e: Shard, id: nat)
      requires 0 <= e.minSlot && e.maxSlot < slotToShard.Length
      modifies slotToShard
      ensures slotToShard[..] == Assign(old(slotToShard[..]), e, id)
    {
      var j := e.minSlot;
      while j <= e.maxSlot
        invariant e.minSlot <= j && (j > e.minSlot ==> j <= e.maxSlot + 1)
        invariant forall k :: 0 <= k < slotToShard.Length ==>
          slotToShard[k] == if e.minSlot <= k < j then id else old(slotToShard[k])
      {
        slotToShard[j] := id;
        j := j + 1;
      }
    }

    /** One shard of the reply; j is the connection it leads to. */
    method ApplyShard(e: Shard) returns (j: nat)
      requires WellFormed(View()) && 0 <= e.minSlot && e.maxSlot < SLOTS
      modifies this, slotToShard
      ensures View() == Apply(cfg, old(View()), e)
      ensures j == Find(old(conns), e.address, e.port)
    {
      j := FindConnection(e);
      if j == |conns| {
        conns := conns + [Conn(j, e.address, e.port, Disconnected, SetupDone, SetupDone, SetupDone, [], 0)];
        pools := pools + [[]];
        assert View() == CreateShard(old(View()), e);
        ConnectShardConnection(j, e);
      } else if conns[j].state.Disconnected? {
        ConnectShardConnection(j, e);
      }
      assert View() == Reach(cfg, old(View()), e);
      UpdateRange(e, j);
    }

    /** The loop over the reply: closeSc keeps track of the earlier connections it does not name. */
    method ApplyShards(shards: seq<Shard>, closeSc: array<bool>)
      requires WellFormed(View()) && InRange(shards)
      requires closeSc.Length == |conns| && forall i :: 0 <= i < closeSc.Length ==> closeSc[i]
      modifies this, slotToShard, closeSc
      ensures View() == ApplyAll(cfg, old(View()), shards)
      ensures forall i :: 0 <= i < closeSc.Length ==> (closeSc[i] <==> !Named(old(conns)[i], shards))
    {
      hide Apply, ApplyAll, Keeps, Named, SameServers, SameServer, WellFormed;
      ghost var s0 := View();
      ApplyNone(cfg, s0, shards);
      for n := 0 to |shards|
        invariant WellFormed(View()) && View() == ApplyAll(cfg, s0, shards[..n]) && closeSc.Length <= |conns|
        invariant SameServers(s0.conns, conns)
        invariant forall i :: 0 <= i < closeSc.Length ==> (closeSc[i] <==> !Named(s0.conns[i], shards[..n]))
      {
        ghost var s := View();
        ApplyOneMore(cfg, s0, shards, n);
        var j := ApplyShard(shards[n]);
        if j < closeSc.Length {
          closeSc[j] := false;
        }
        forall i | 0 <= i < closeSc.Length ensures closeSc[i] <==> !Named(s0.conns[i], shards[..n + 1]) {
          NamedSnoc(s0.conns[i], shards, n);
          FoundIt(s0, s, shards[n], i);
        }
      }
      assert shards[..|shards|] == shards;
    }

    lemma ApplyNone(cfg: Config, s: Cluster, shards: seq<Shard>)
      requires WellFormed(s)
      ensures |s.conns| == |s.pools| && ApplyAll(cfg, s, shards[..0]) == s && SameServers(s.conns, s.conns)
      ensures forall i :: 0 <= i < |s.conns| ==> !Named(s.conns[i], shards[..0])
    {
    }

    lemma ApplyOneMore(cfg: Config, s0: Cluster, shards: seq<Shard>, n: nat)
      requires |s0.conns| == |s0.pools| && n < |shards|
      requires WellFormed(ApplyAll(cfg, s0, shards[..n])) && SameServers(s0.conns, ApplyAll(cfg, s0, shards[..n]).conns)
      ensures var s := ApplyAll(cfg, s0, shards[..n]);
              var t := ApplyAll(cfg, s0, shards[..n + 1]);
              && t == Apply(cfg, s, shards[n]) && WellFormed(t)
              && |s.conns| <= |t.conns| && SameServers(s0.conns, t.conns)
    {
      hide Apply, Balanced;
      assert shards[..n + 1][..n] == shards[..n];
      ApplyKeeps(cfg, ApplyAll(cfg, s0, shards[..n]), shards[n]);
    }

    lemma FoundIt(s0: Cluster, s: Cluster, e: Shard, i: nat)
      requires WellFormed(s) && i < |s0.conns| && SameServers(s0.conns, s.conns)
      ensures SameServer(s0.conns[i], e.address, e.port) <==> i == Find(s.conns, e.address, e.port)
    {
      hide InFlight, Pooled;
    }

    lemma NamedSnoc(c: Conn, shards: seq<Shard>, n: nat)
      requires n < |shards|
      ensures Named(c, shards[..n + 1]) <==> Named(c, shards[..n]) || SameServer(c, shards[n].address, shards[n].port)
    {
      var more := shards[..n + 1];
      if Named(c, shards[..n]) {
        var k :| 0 <= k < n && SameServer(c, shards[..n][k].address, shards[..n][k].port);
        assert more[k] == shards[..n][k];
      }
      if SameServer(c, shards[n].address, shards[n].port) {
        assert more[n] == shards[n];
      }
      if Named(c, more) {
        var k :| 0 <= k < |more| && SameServer(c, more[k].address, more[k].port);
        assert k < n ==> more[k] == shards[..n][k];
      }
    }

    /** The final loop: close the marked connections that are not closed already. */
    method CloseMarked(closeSc: array<bool>)
      requires closeSc.Length <= |conns|
      modifies this`conns
      ensures |conns| == |old(conns)|
      ensures forall k :: 0 <= k < |conns| ==>
        conns[k] == if k < closeSc.Length && closeSc[k] && !old(conns)[k].state.Disconnected?
                    then Disconnect(old(conns)[k]) else old(conns)[k]
    {
      for i := 0 to closeSc.Length
        invariant |conns| == |old(conns)|
        invariant forall k :: 0 <= k < |conns| ==>
          conns[k] == if k < i && closeSc[k] && !old(conns)[k].state.Disconnected?
                      then Disconnect(old(conns)[k]) else old(conns)[k]
      {
        if closeSc[i] && !conns[i].state.Disconnected? {
          conns := conns[i := Disconnect(conns[i])];
        }
      }
    }

    /** handle_cluster_slots */
    method HandleClusterSlots(shards: seq<Shard>)
      requires WellFormed(View()) && InRange(shards)
      modifies this, slotToShard
      ensures View() == HandleSlots(cfg, old(View()), shards)
    {
      hide ApplyAll, Named, WellFormed, Balanced;
      var closeSc := new bool[|conns|](_ => true);
      ApplyAllKeeps(cfg, View(), shards);
      ApplyShards(shards, closeSc);
      ghost var t := View();
      CloseMarked(closeSc);
      forall i | 0 <= i < closeSc.Length ensures closeSc[i] <==> !Named(t.conns[i], shards) {
        SameName(old(conns)[i], t.conns[i], shards);
      }
      assert conns == CloseUnused(t.conns, closeSc.Length, shards);
    }

    lemma SameName(c: Conn, d: Conn, shards: seq<Shard>)
      requires SameServer(d, c.address, c.port)
      ensures Named(c, shards) <==> Named(d, shards)
    {
    }

    lemma Shape(s: Cluster)
      requires WellFormed(s)
      ensures |s.conns| == |s.pools| && |s.slotMap| == SLOTS
    {
    }

    /** The retry loop of get_key_for_conn; None if the keys run out before it returns. */
    method SearchKey(c: nat, keys: seq<nat>) returns (found: Option<bool>, key: nat)
      requires WellFormed(View()) && c < |conns|
      modifies this
      ensures match Search(cfg, old(View()), c, keys)
              case Unfinished => found == None
              case Got(t, k) => found == Some(true) && View() == t && key == k
              case GaveUp(t) => found == Some(false) && View() == t
    {
      hide InFlight, Pooled, Search, WellFormed, SearchKeeps;
      Shape(View());
      key := 0;
      assert keys[0..] == keys;
      for i := 0 to |keys|
        invariant WellFormed(View()) && c < |conns| && conns == old(conns)
        invariant |conns| == |pools| && slotToShard.Length == SLOTS
        invariant Search(cfg, old(View()), c, keys) == Search(cfg, View(), c, keys[i..])
      {
        ghost var s := View();
        key := keys[i];
        assert keys[i..][0] == key && keys[i..][1..] == keys[i + 1..];
        SearchUnfolds(cfg, s, c, keys[i..]);
        var o := slotToShard[cfg.keySlot(key)];
        if o == c {
          generated := generated + 1;
          return Some(true), key;
        }
        if o >= |conns| {
          return None, key;
        }
        if conns[o].state.Disconnected? {
          conns := conns[c := conns[c].(slots := NotSent)];
          return Some(false), key;
        }
        if !conns[o].slots.SetupDone? {
          continue;
        }
        if |pools[o]| < KEY_INDEX_QUEUE_MAX_SIZE {
          PoolKey(s, o, key);
          KeptShape(s, Pool(s, o, key));
          pools, generated := pools[o := pools[o] + [key]], generated + 1;
        }
        if cfg.requests > 0 && generated >= cfg.requests {
          return Some(false), key;
        }
      }
      EmptySearch(cfg, View(), c, keys[|keys|..]);
      return None, key;
    }

    /** get_key_for_conn, for the keys the generator yields. */
    method GetKeyForConn(c: nat, keys: seq<nat>) returns (found: Option<bool>, key: nat)
      requires WellFormed(View()) && c < |conns|
      modifies this
      ensures match GetKey(cfg, old(View()), c, keys)
              case Unfinished => found == None
              case Got(t, k) => found == Some(true) && View() == t && key == k
              case GaveUp(t) => found == Some(false) && View() == t
    {
      if pools[c] != [] {
        key := pools[c][0];
        pools := pools[c := pools[c][1..]];
        found := Some(true);
      } else {
        found, key := SearchKey(c, keys);
      }
    }

    /** push_req on one connection. */
    method PushRequest(c: nat, r: Request)
      requires c < |conns|
      modifies this`conns
      ensures View() == Send(old(View()), c, r)
    {
      conns := conns[c := Push(conns[c], r)];
    }

    /** The SET branch of create_request. */
    method CreateSet(c: nat, keys: seq<nat>) returns (returned: bool)
      requires WellFormed(View()) && c < |conns|
      requires !WaitIsDue(cfg, View()) && setCount < cfg.ratioA
      modifies this
      ensures match Create(cfg, old(View()), c, keys)
              case None => !returned
              case Some(t) => returned && View() == t
    {
      hide GetKey, WellFormed, InFlight, Pooled, WaitIsDue;
      GetKeyConserves(cfg, View(), c, keys);
      var found, key := GetKeyForConn(c, keys);
      returned := found.Some?;
      if found == Some(true) {
        setCount, totSet := setCount + 1, totSet + 1;
        PushRequest(c, Request(SetReq, key));
      }
    }

    /** The GET branch of create_request. */
    method CreateGet(c: nat, keys: seq<nat>) returns (returned: bool)
      requires WellFormed(View()) && c < |conns|
      requires !WaitIsDue(cfg, View()) && setCount >= cfg.ratioA && getCount < cfg.ratioB
      modifies this
      ensures match Create(cfg, old(View()), c, keys)
              case None => !returned
              case Some(t) => returned && View() == t
    {
      hide GetKey, WellFormed, InFlight, Pooled, WaitIsDue;
      GetKeyConserves(cfg, View(), c, keys);
      var found, key := GetKeyForConn(c, keys);
      returned := found.Some?;
      if found == Some(true) {
        getCount := getCount + 1;
        PushRequest(c, Request(GetReq, key));
      }
    }

    /** create_request; false if the keys run out first. */
    method CreateRequest(c: nat, keys: seq<nat>) returns (returned: bool)
      requires WellFormed(View()) && c < |conns|
      modifies this
      ensures match Create(cfg, old(View()), c, keys)
              case None => !returned
              case Some(t) => returned && View() == t
    {
      hide GetKey, WellFormed;
      returned := true;
      if cfg.waitB != 0 && (totWait == 0 || totSet / totWait > cfg.waitA / cfg.waitB) {
        totWait, generated := totWait + 1, generated + 1;
        PushRequest(c, Request(WaitReq, 0));
      } else if setCount < cfg.ratioA {
        returned := CreateSet(c, keys);
      } else if getCount < cfg.ratioB {
        returned := CreateGet(c, keys);
      } else {
        getCount, setCount := 0, 0;
      }
    }

    /** fill_pipeline, given what the key generator yields to each create_request: it is a run of the step
        system, and if no create_request is left waiting for keys it stops because the client is finished, the
        pipeline is full, setup is under way, or the connection must hold. */
    method FillPipeline(c: nat, supply: seq<seq<nat>>) returns (ghost events: seq<Event>, settled: bool)
      requires Invariant(cfg, View()) && c < |conns|
      modifies this
      ensures settled ==> Run(cfg, old(View()), events) == Some(View()) && c < |conns| == |pools|
      ensures settled ==> Finished(cfg, View()) || |conns[c].pipeline| >= cfg.pipeline
                          || Hold(cfg, View(), c) || !SetupComplete(conns[c])
    {
      hide Create, Invariant, Next, Run;
      ghost var s0 := View();
      EmptyRun(cfg, s0);
      events, settled := [], false;
      for i := 0 to |supply|
        invariant !settled && Invariant(cfg, View())
        invariant Run(cfg, s0, events) == Some(View()) && c < |conns|
      {
        ghost var s := View();
        InvariantShape(cfg, s);
        if (cfg.requests > 0 && processed >= cfg.requests) || |conns[c].pipeline| >= cfg.pipeline {
          settled := true;
          return;
        }
        if !SetupComplete(conns[c]) {
          ExtendRun(cfg, s0, events, s, SetupSent(c));
          events := events + [SetupSent(c)];
          conns := conns[c := SendSetup(conns[c])];
          SetupStep(cfg, s, c);
          settled := true;
          return;
        }
        if conns[c].state.Disconnected? || (cfg.requests > 0 && pools[c] == [] && generated >= cfg.requests) {
          settled := true;
          return;
        }
        var returned := CreateRequest(c, supply[i]);
        if !returned {
          return;
        }
        ghost var e := Created(c, supply[i]);
        CreateStep(cfg, s, c, supply[i]);
        ExtendRun(cfg, s0, events, s, e);
        NextKeepsInvariant(cfg, s, e);
        events := events + [e];
      }
    }
  }

  lemma EmptySearch(cfg: Config, s: Cluster, c: nat, keys: seq<nat>)
    requires c < |s.conns| == |s.pools| && |s.slotMap| == SLOTS && |keys| == 0
    ensures Search(cfg, s, c, keys) == Unfinished
  {
  }

  lemma EmptyRun(cfg: Config, s: Cluster)
    ensures Run(cfg, s, []) == Some(s)
  {
  }

  lemma ExtendRun(cfg: Config, s0: Cluster, events: seq<Event>, s: Cluster, e: Event)
    requires Run(cfg, s0, events) == Some(s) && |s.conns| == |s.pools| && |s.slotMap| == SLOTS && Enabled(cfg, s, e)
    ensures Run(cfg, s0, events + [e]) == Some(Next(cfg, s, e))
  {
    hide Enabled, Next;
    assert (events + [e])[..|events|] == events;
  }

  lemma InvariantShape(cfg: Config, s: Cluster)
    requires Invariant(cfg, s)
    ensures WellFormed(s) && |s.conns| == |s.pools| && |s.slotMap| == SLOTS
  {
  }

  lemma SetupStep(cfg: Config, s: Cluster, c: nat)
    requires |s.conns| == |s.pools| && |s.slotMap| == SLOTS && Enabled(cfg, s, SetupSent(c))
    ensures Next(cfg, s, SetupSent(c)) == SetConn(s, c, SendSetup(s.conns[c]))
    ensures !SetupComplete(SendSetup(s.conns[c]))
  {
  }

  lemma CreateStep(cfg: Config, s: Cluster, c: nat, keys: seq<nat>)
    requires WellFormed(s) && Enabled(cfg, s, Created(c, keys))
    ensures Next(cfg, s, Created(c, keys)) == Create(cfg, s, c, keys).value
    ensures c < |Next(cfg, s, Created(c, keys)).conns|
  {
    CreateServers(cfg, s, c, keys);
  }
}
