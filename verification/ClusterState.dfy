/** The state of a cluster client: its shard connections, key pools, slot map and counters. */
module ClusterState {
  import opened ByteStrings

  const SLOTS: nat := 16384
  const KEY_INDEX_QUEUE_MAX_SIZE: nat := 1000000

  datatype ConnState = Disconnected | InProgress | Connected

  /** auth_none/sent/done and its two siblings. */
  datatype SetupState = NotSent | Sent | SetupDone

  datatype RequestKind = SetReq | GetReq | WaitReq | AuthReq | SelectReq | SlotsReq

  /** A request awaiting its reply; key is the key index of a SET or GET. */
  datatype Request = Request(kind: RequestKind, key: nat)

  /** shard_connection */
  datatype Conn = Conn(id: nat, address: Bytes, port: Bytes, state: ConnState,
                       auth: SetupState, selectDb: SetupState, slots: SetupState,
                       pipeline: seq<Request>, pending: int)

  type Slot = x: nat | x < SLOTS

  /** The options a run depends on; waitA:waitB is the SET:WAIT ratio, 0:0 when not given.  `keySlot` is the
      hash slot of a key index. */
  datatype Config = Config(requests: nat, pipeline: nat, ratioA: nat, ratioB: nat, waitA: nat, waitB: nat,
                           authenticate: bool, selectDb: bool, keySlot: nat -> Slot)

  /** cluster_client.  `discarded` is not a field of the source: it counts the keys thrown away with
      emptied pools. */
  datatype Cluster = Cluster(conns: seq<Conn>, pools: seq<seq<nat>>, slotMap: seq<nat>,
                             generated: nat, processed: nat, discarded: nat,
                             setCount: nat, getCount: nat, totSet: nat, totWait: nat)

  // ----- sums over connections and pools -----

  function IsData(r: Request): bool {
    r.kind.SetReq? || r.kind.GetReq? || r.kind.WaitReq?
  }

  function DataIn(pipeline: seq<Request>): nat {
    if pipeline == [] then 0 else (if IsData(pipeline[0]) then 1 else 0) + DataIn(pipeline[1..])
  }

  function InFlight(conns: seq<Conn>): nat {
    if conns == [] then 0 else DataIn(conns[0].pipeline) + InFlight(conns[1..])
  }

  function Pooled(pools: seq<seq<nat>>): nat {
    if pools == [] then 0 else |pools[0]| + Pooled(pools[1..])
  }

  lemma {:induction false} DataInSnoc(pipeline: seq<Request>, r: Request)
    ensures DataIn(pipeline + [r]) == DataIn(pipeline) + if IsData(r) then 1 else 0
    decreases |pipeline|
  {
    if pipeline == [] {
      assert pipeline + [r] == [r] && [r][1..] == [];
    } else {
      assert (pipeline + [r])[1..] == pipeline[1..] + [r];
      DataInSnoc(pipeline[1..], r);
    }
  }

  lemma {:induction false} InFlightUpdate(conns: seq<Conn>, i: nat, c: Conn)
    requires i < |conns|
    ensures InFlight(conns[i := c]) == InFlight(conns) - DataIn(conns[i].pipeline) + DataIn(c.pipeline)
    decreases |conns|
  {
    if i > 0 {
      assert conns[i := c][1..] == conns[1..][i - 1 := c];
      InFlightUpdate(conns[1..], i - 1, c);
    } else {
      assert conns[i := c][1..] == conns[1..];
    }
  }

  lemma {:induction false} InFlightSnoc(conns: seq<Conn>, c: Conn)
    ensures InFlight(conns + [c]) == InFlight(conns) + DataIn(c.pipeline)
    decreases |conns|
  {
    if conns == [] {
      assert conns + [c] == [c] && [c][1..] == [];
    } else {
      assert (conns + [c])[1..] == conns[1..] + [c];
      InFlightSnoc(conns[1..], c);
    }
  }

  lemma {:induction false} PooledUpdate(pools: seq<seq<nat>>, i: nat, q: seq<nat>)
    requires i < |pools|
    ensures Pooled(pools[i := q]) == Pooled(pools) - |pools[i]| + |q|
    decreases |pools|
  {
    if i > 0 {
      assert pools[i := q][1..] == pools[1..][i - 1 := q];
      PooledUpdate(pools[1..], i - 1, q);
    } else {
      assert pools[i := q][1..] == pools[1..];
    }
  }

  lemma {:induction false} PooledSnoc(pools: seq<seq<nat>>, q: seq<nat>)
    ensures Pooled(pools + [q]) == Pooled(pools) + |q|
    decreases |pools|
  {
    if pools == [] {
      assert pools + [q] == [q] && [q][1..] == [];
    } else {
      assert (pools + [q])[1..] == pools[1..] + [q];
      PooledSnoc(pools[1..], q);
    }
  }

  // ----- what every operation keeps -----

  predicate SameServer(c: Conn, address: Bytes, port: Bytes) {
    c.address == address && c.port == port
  }

  /** Connection ids are vector indices, servers are pairwise distinct, there is one pool per connection,
      and a connection awaits as many replies as it has requests queued. */
  predicate WellFormed(s: Cluster) {
    && |s.pools| == |s.conns|
    && |s.slotMap| == SLOTS
    && (forall i :: 0 <= i < |s.conns| ==> s.conns[i].id == i && s.conns[i].pending == |s.conns[i].pipeline|)
    && (forall i, j :: 0 <= i < j < |s.conns| ==> !SameServer(s.conns[i], s.conns[j].address, s.conns[j].port))
    && (forall i :: 0 <= i < |s.pools| ==> |s.pools[i]| <= KEY_INDEX_QUEUE_MAX_SIZE)
  }

  /** No request is lost or counted twice. */
  predicate Conserved(s: Cluster) {
    s.generated == s.processed + InFlight(s.conns) + Pooled(s.pools) + s.discarded
  }

  function Disconnect(c: Conn): Conn {
    c.(state := Disconnected, auth := SetupDone, selectDb := SetupDone, slots := SetupDone)
  }
}
