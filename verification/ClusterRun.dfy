/** The cluster client as a step system: every callback of a run is one or more of these events. */
module ClusterRun {
  import opened ByteStrings
  import opened ClusterState
  import opened ClusterSlots

  // ----- small steps of a connection -----

  function Push(c: Conn, r: Request): Conn {
    c.(pipeline := c.pipeline + [r], pending := c.pending + 1)
  }

  function Pop(c: Conn): Conn
    requires c.pipeline != []
  {
    c.(pipeline := c.pipeline[1..], pending := c.pending - 1)
  }

  predicate SetupComplete(c: Conn) {
    c.auth.SetupDone? && c.selectDb.SetupDone? && c.slots.SetupDone?
  }

  /** send_conn_setup_commands */
  function SendSetup(c: Conn): Conn {
    var c1 := if c.auth.NotSent? then Push(c, Request(AuthReq, 0)).(auth := Sent) else c;
    var c2 := if c1.selectDb.NotSent? then Push(c1, Request(SelectReq, 0)).(selectDb := Sent) else c1;
    if c2.slots.NotSent? then Push(c2, Request(SlotsReq, 0)).(slots := Sent) else c2
  }

  // ----- keys -----

  /** Outcome of get_key_for_conn when the generator yields the given keys. */
  datatype KeyResult = Got(s: Cluster, key: nat) | GaveUp(s: Cluster) | Unfinished

  /** The retry loop: keys for other connections are pooled on the way. */
  function Search(cfg: Config, s: Cluster, c: nat, keys: seq<nat>): KeyResult
    requires c < |s.conns| == |s.pools| && |s.slotMap| == SLOTS
    decreases |keys|
  {
    if keys == [] then Unfinished
    else
      var o := s.slotMap[cfg.keySlot(keys[0])];
      if o == c then Got(s.(generated := s.generated + 1), keys[0])
      else if o >= |s.conns| then Unfinished
      else if s.conns[o].state.Disconnected? then GaveUp(s.(conns := s.conns[c := s.conns[c].(slots := NotSent)]))
      else if !s.conns[o].slots.SetupDone? then Search(cfg, s, c, keys[1..])
      else
        var t := if |s.pools[o]| < KEY_INDEX_QUEUE_MAX_SIZE
                 then s.(pools := s.pools[o := s.pools[o] + [keys[0]]], generated := s.generated + 1) else s;
        if cfg.requests > 0 && t.generated >= cfg.requests then GaveUp(t) else Search(cfg, t, c, keys[1..])
  }

  /** get_key_for_conn */
  function GetKey(cfg: Config, s: Cluster, c: nat, keys: seq<nat>): KeyResult
    requires c < |s.conns| == |s.pools| && |s.slotMap| == SLOTS
  {
    if s.pools[c] != [] then Got(s.(pools := s.pools[c := s.pools[c][1..]]), s.pools[c][0])
    else Search(cfg, s, c, keys)
  }

  // ----- creating requests -----

  predicate Finished(cfg: Config, s: Cluster) {
    cfg.requests > 0 && s.processed >= cfg.requests
  }

  /** hold_pipeline */
  predicate Hold(cfg: Config, s: Cluster, c: nat)
    requires c < |s.conns| == |s.pools|
  {
    || s.conns[c].state.Disconnected?
    || (cfg.requests > 0 && s.pools[c] == [] && s.generated >= cfg.requests)
  }

  predicate WaitIsDue(cfg: Config, s: Cluster) {
    cfg.waitB != 0 && (s.totWait == 0 || s.totSet / s.totWait > cfg.waitA / cfg.waitB)
  }

  function Send(s: Cluster, c: nat, r: Request): Cluster
    requires c < |s.conns|
  {
    s.(conns := s.conns[c := Push(s.conns[c], r)])
  }

  /** create_request; None while the key search is still running. */
  function Create(cfg: Config, s: Cluster, c: nat, keys: seq<nat>): Option<Cluster>
    requires c < |s.conns| == |s.pools| && |s.slotMap| == SLOTS
  {
    if WaitIsDue(cfg, s) then
      Some(Send(s.(totWait := s.totWait + 1, generated := s.generated + 1), c, Request(WaitReq, 0)))
    else if s.setCount < cfg.ratioA then
      match GetKey(cfg, s, c, keys)
      case Unfinished => None
      case GaveUp(t) => Some(t)
      case Got(t, key) =>
        if c < |t.conns| then
          Some(Send(t.(setCount := t.setCount + 1, totSet := t.totSet + 1), c, Request(SetReq, key)))
        else None
    else if s.getCount < cfg.ratioB then
      match GetKey(cfg, s, c, keys)
      case Unfinished => None
      case GaveUp(t) => Some(t)
      case Got(t, key) =>
        if c < |t.conns| then Some(Send(t.(getCount := t.getCount + 1), c, Request(GetReq, key))) else None
    else
      Some(s.(setCount := 0, getCount := 0))
  }

  // ----- replies -----

  /** What a reply says, as far as the client looks at it. */
  datatype Reply = Reply(error: bool, moved: bool, ok: bool, shards: seq<Shard>)

  /** handle_moved: the pool may hold keys of other servers; empty it and ask for the slots again. */
  function HandleMoved(s: Cluster, c: nat): Cluster
    requires c < |s.conns| && c < |s.pools|
  {
    if !s.conns[c].slots.SetupDone? then s
    else s.(pools := s.pools[c := []], discarded := s.discarded + |s.pools[c]|,
            conns := s.conns[c := s.conns[c].(slots := NotSent)])
  }

  function SetConn(s: Cluster, c: nat, d: Conn): Cluster
    requires c < |s.conns|
  {
    s.(conns := s.conns[c := d])
  }

  /** The switch of process_response on one popped request. */
  function HandleReply(cfg: Config, s: Cluster, c: nat, r: Reply): Cluster
    requires c < |s.conns| == |s.pools| && s.conns[c].pipeline != []
  {
    var kind := s.conns[c].pipeline[0].kind;
    var t := SetConn(s, c, Pop(s.conns[c]));
    match kind
    case AuthReq => if r.error then t else SetConn(t, c, t.conns[c].(auth := SetupDone))
    case SelectReq => if r.ok then SetConn(t, c, t.conns[c].(selectDb := SetupDone)) else t
    case SlotsReq =>
      if r.shards == [] then t
      else
        var u := HandleSlots(cfg, t, r.shards);
        if c < |u.conns| then SetConn(u, c, u.conns[c].(slots := SetupDone)) else u
    case _ =>
      var u := if r.error && r.moved then HandleMoved(t, c) else t;
      u.(processed := u.processed + 1)
  }

  // ----- runs -----

  datatype Event =
    | ConnectionUp(c: nat)               // the bufferevent reports CONNECTED
    | ConnectionDown(c: nat)             // ... an error or end of file
    | SetupSent(c: nat)                  // fill_pipeline sends setup commands
    | Created(c: nat, keys: seq<nat>)    // fill_pipeline calls create_request
    | Replied(c: nat, r: Reply)          // process_response handles one reply

  /** The guards under which the source takes each step. */
  predicate Enabled(cfg: Config, s: Cluster, e: Event)
    requires |s.conns| == |s.pools| && |s.slotMap| == SLOTS
  {
    e.c < |s.conns| &&
    match e
    case ConnectionUp(c) => s.conns[c].state.InProgress?
    case ConnectionDown(c) => !s.conns[c].state.Disconnected?
    case SetupSent(c) =>
      !Finished(cfg, s) && |s.conns[c].pipeline| < cfg.pipeline && !SetupComplete(s.conns[c])
    case Created(c, keys) =>
      && !Finished(cfg, s) && |s.conns[c].pipeline| < cfg.pipeline && SetupComplete(s.conns[c])
      && !Hold(cfg, s, c) && Create(cfg, s, c, keys).Some?
    case Replied(c, r) =>
      s.conns[c].state.Connected? && s.conns[c].pipeline != [] && InRange(r.shards)
  }

  function Next(cfg: Config, s: Cluster, e: Event): Cluster
    requires |s.conns| == |s.pools| && |s.slotMap| == SLOTS && Enabled(cfg, s, e)
  {
    match e
    case ConnectionUp(c) => SetConn(s, c, s.conns[c].(state := Connected))
    case ConnectionDown(c) => SetConn(s, c, Disconnect(s.conns[c]))
    case SetupSent(c) => SetConn(s, c, SendSetup(s.conns[c]))
    case Created(c, keys) => Create(cfg, s, c, keys).value
    case Replied(c, r) => HandleReply(cfg, s, c, r)
  }

  /** Where a run is after its last event, or None if some event of it cannot happen. */
  function Run(cfg: Config, s: Cluster, events: seq<Event>): Option<Cluster>
    decreases |events|
  {
    if events == [] then Some(s)
    else
      match Run(cfg, s, events[..|events| - 1])
      case None => None
      case Some(t) =>
        var e := events[|events| - 1];
        if |t.conns| == |t.pools| && |t.slotMap| == SLOTS && Enabled(cfg, t, e) then Some(Next(cfg, t, e)) else None
  }

  /** cluster_client::connect: one connection, asked for the slots, with an empty pool; the slot map is
      not initialised. */
  predicate Initial(s: Cluster) {
    && |s.conns| == 1 && s.pools == [[]] && |s.slotMap| == SLOTS
    && s.conns[0].id == 0 && s.conns[0].state.InProgress? && s.conns[0].slots.NotSent?
    && s.conns[0].pipeline == [] && s.conns[0].pending == 0
    && s.generated == 0 && s.processed == 0 && s.discarded == 0
    && s.setCount == 0 && s.getCount == 0 && s.totSet == 0 && s.totWait == 0
  }

  /** verify_cluster_option: no WAIT commands in cluster mode. */
  predicate Allowed(cfg: Config) {
    cfg.waitA == 0 && cfg.waitB == 0
  }

  // ----- conservation -----

  predicate WithinBudget(cfg: Config, s: Cluster) {
    Allowed(cfg) && cfg.requests > 0 ==> s.generated <= cfg.requests
  }

  predicate Invariant(cfg: Config, s: Cluster) {
    WellFormed(s) && Conserved(s) && WithinBudget(cfg, s)
  }

  lemma PushInFlight(s: Cluster, c: nat, r: Request)
    requires WellFormed(s) && c < |s.conns|
    ensures WellFormed(Send(s, c, r))
    ensures InFlight(Send(s, c, r).conns) == InFlight(s.conns) + if IsData(r) then 1 else 0
  {
    DataInSnoc(s.conns[c].pipeline, r);
    InFlightUpdate(s.conns, c, Push(s.conns[c], r));
  }

  lemma SetConnKeeps(s: Cluster, c: nat, d: Conn)
    requires WellFormed(s) && c < |s.conns|
    requires d.id == c && SameServer(d, s.conns[c].address, s.conns[c].port)
    requires d.pending == |d.pipeline| && DataIn(d.pipeline) == DataIn(s.conns[c].pipeline)
    ensures WellFormed(SetConn(s, c, d)) && InFlight(SetConn(s, c, d).conns) == InFlight(s.conns)
  {
    InFlightUpdate(s.conns, c, d);
  }

  /** A key search changes nothing but pools, the count of generated requests and, when it gives up on a
      closed server, one setup flag. */
  predicate SearchKeeps(s: Cluster, t: Cluster) {
    && WellFormed(t)
    && Extends(s.conns, t.conns) && |t.conns| == |s.conns| && InFlight(t.conns) == InFlight(s.conns)
    && t.slotMap == s.slotMap && t.processed == s.processed && t.discarded == s.discarded
  }

  lemma PoolKey(s: Cluster, o: nat, key: nat)
    requires WellFormed(s) && o < |s.pools| && |s.pools[o]| < KEY_INDEX_QUEUE_MAX_SIZE
    ensures var t := s.(pools := s.pools[o := s.pools[o] + [key]], generated := s.generated + 1);
            SearchKeeps(s, t) && Pooled(t.pools) == Pooled(s.pools) + 1
  {
    PooledUpdate(s.pools, o, s.pools[o] + [key]);
  }

  lemma AskForSlots(s: Cluster, c: nat)
    requires WellFormed(s) && c < |s.conns|
    ensures var t := s.(conns := s.conns[c := s.conns[c].(slots := NotSent)]);
            SearchKeeps(s, t)
  {
    SetConnKeeps(s, c, s.conns[c].(slots := NotSent));
  }

  /** What a key search does to the books: nothing but what it counts, within the budget. */
  predicate SearchBooks(cfg: Config, s: Cluster, r: KeyResult, within: bool) {
    match r
    case Unfinished => true
    case Got(t, _) =>
      && SearchKeeps(s, t) && t.generated - s.generated == Pooled(t.pools) - Pooled(s.pools) + 1
      && (within ==> t.generated <= cfg.requests)
    case GaveUp(t) =>
      && SearchKeeps(s, t) && t.generated - s.generated == Pooled(t.pools) - Pooled(s.pools)
      && (within ==> t.generated <= cfg.requests)
  }

  predicate RoomLeft(cfg: Config, s: Cluster) {
    cfg.requests > 0 && s.generated < cfg.requests
  }

  lemma KeepsAgain(s: Cluster, t: Cluster, u: Cluster)
    requires SearchKeeps(s, t) && SearchKeeps(t, u)
    ensures SearchKeeps(s, u)
  {
    hide WellFormed, InFlight;
  }

  lemma KeepsSelf(s: Cluster, t: Cluster)
    requires WellFormed(s) && t.conns == s.conns && t.pools == s.pools && t.slotMap == s.slotMap
    requires t.processed == s.processed && t.discarded == s.discarded
    ensures SearchKeeps(s, t)
  {
    hide InFlight;
  }

  /** A search that goes on after pooling a key. */
  lemma BooksAgain(cfg: Config, s: Cluster, t: Cluster, r: KeyResult)
    requires SearchKeeps(s, t) && t.generated - s.generated == Pooled(t.pools) - Pooled(s.pools)
    requires SearchBooks(cfg, t, r, RoomLeft(cfg, t))
    ensures SearchBooks(cfg, s, r, RoomLeft(cfg, t))
  {
    hide SearchKeeps, Pooled;
    match r
    case Unfinished =>
    case Got(u, _) => KeepsAgain(s, t, u);
    case GaveUp(u) => KeepsAgain(s, t, u);
  }

  /** The state after the key at hand has been pooled, if there is room. */
  function Pool(s: Cluster, o: nat, key: nat): Cluster
    requires o < |s.pools|
  {
    if |s.pools[o]| < KEY_INDEX_QUEUE_MAX_SIZE
    then s.(pools := s.pools[o := s.pools[o] + [key]], generated := s.generated + 1) else s
  }

  lemma PoolBooks(s: Cluster, o: nat, key: nat)
    requires WellFormed(s) && o < |s.pools|
    ensures var t := Pool(s, o, key);
            && SearchKeeps(s, t) && t.generated - s.generated == Pooled(t.pools) - Pooled(s.pools)
            && s.generated <= t.generated <= s.generated + 1
  {
    hide SearchKeeps, Pooled, WellFormed;
    if |s.pools[o]| < KEY_INDEX_QUEUE_MAX_SIZE {
      PoolKey(s, o, key);
    } else {
      KeepsSelf(s, s);
    }
  }

  /** Every key the search generates for the books ends up in a pool or is the one returned. */
  lemma {:induction false} SearchConserves(cfg: Config, s: Cluster, c: nat, keys: seq<nat>)
    requires WellFormed(s) && c < |s.conns|
    ensures SearchBooks(cfg, s, Search(cfg, s, c, keys), RoomLeft(cfg, s))
    decreases |keys|
  {
    assert |s.conns| == |s.pools| && |s.slotMap| == SLOTS;
    if keys != [] {
      hide WellFormed, SearchKeeps, Pooled, Pool, Search;
      var o := s.slotMap[cfg.keySlot(keys[0])];
      SearchUnfolds(cfg, s, c, keys);
      if o == c {
        KeepsSelf(s, s.(generated := s.generated + 1));
      } else if o < |s.conns| && s.conns[o].state.Disconnected? {
        AskForSlots(s, c);
      } else if o < |s.conns| && !s.conns[o].slots.SetupDone? {
        SearchConserves(cfg, s, c, keys[1..]);
      } else if o < |s.conns| {
        var t := Pool(s, o, keys[0]);
        PoolBooks(s, o, keys[0]);
        KeptShape(s, t);
        if !(cfg.requests > 0 && t.generated >= cfg.requests) {
          SearchConserves(cfg, t, c, keys[1..]);
          BooksAgain(cfg, s, t, Search(cfg, t, c, keys[1..]));
        }
      }
    }
  }

  lemma KeptShape(s: Cluster, t: Cluster)
    requires SearchKeeps(s, t)
    ensures WellFormed(t) && |t.conns| == |s.conns| == |t.pools| && |t.slotMap| == SLOTS
  {
    hide InFlight;
  }

  /** One key of the search, o being the connection its slot maps to. */
  function SearchOne(cfg: Config, s: Cluster, c: nat, o: nat, keys: seq<nat>): KeyResult
    requires c < |s.conns| == |s.pools| && |s.slotMap| == SLOTS && keys != []
  {
    if o == c then Got(s.(generated := s.generated + 1), keys[0])
    else if o >= |s.conns| then Unfinished
    else if s.conns[o].state.Disconnected? then GaveUp(s.(conns := s.conns[c := s.conns[c].(slots := NotSent)]))
    else if !s.conns[o].slots.SetupDone? then Search(cfg, s, c, keys[1..])
    else
      var t := Pool(s, o, keys[0]);
      if cfg.requests > 0 && t.generated >= cfg.requests then GaveUp(t) else Search(cfg, t, c, keys[1..])
  }

  lemma SearchUnfolds(cfg: Config, s: Cluster, c: nat, keys: seq<nat>)
    requires c < |s.conns| == |s.pools| && |s.slotMap| == SLOTS && keys != []
    ensures Search(cfg, s, c, keys) == SearchOne(cfg, s, c, s.slotMap[cfg.keySlot(keys[0])], keys)
  {
  }

  lemma GetKeyConserves(cfg: Config, s: Cluster, c: nat, keys: seq<nat>)
    requires WellFormed(s) && c < |s.conns|
    ensures SearchBooks(cfg, s, GetKey(cfg, s, c, keys),
                        && cfg.requests > 0 && s.generated <= cfg.requests
                        && (s.generated < cfg.requests || s.pools[c] != []))
  {
    hide SearchKeeps, Search, Pooled;
    SearchConserves(cfg, s, c, keys);
    if s.pools[c] != [] {
      PooledUpdate(s.pools, c, s.pools[c][1..]);
      TakenKeeps(s, c);
    }
  }

  lemma TakenKeeps(s: Cluster, c: nat)
    requires WellFormed(s) && c < |s.pools| && s.pools[c] != []
    ensures SearchKeeps(s, s.(pools := s.pools[c := s.pools[c][1..]]))
  {
    hide InFlight;
  }

  /** Books of a client that has counted one request it has not sent yet. */
  predicate OneToSend(cfg: Config, s: Cluster) {
    && WellFormed(s) && WithinBudget(cfg, s)
    && s.generated == s.processed + InFlight(s.conns) + Pooled(s.pools) + s.discarded + 1
  }

  lemma SendKeepsInvariant(cfg: Config, s: Cluster, c: nat, r: Request)
    requires OneToSend(cfg, s) && c < |s.conns| && IsData(r)
    ensures Invariant(cfg, Send(s, c, r))
  {
    hide WellFormed, InFlight, Pooled;
    PushInFlight(s, c, r);
  }

  /** The books do not depend on the ratio counters. */
  lemma RatiosDoNotMatter(cfg: Config, s: Cluster, setCount: nat, getCount: nat, totSet: nat, totWait: nat)
    ensures var t := s.(setCount := setCount, getCount := getCount, totSet := totSet, totWait := totWait);
            && (OneToSend(cfg, s) ==> OneToSend(cfg, t)) && (Invariant(cfg, s) ==> Invariant(cfg, t))
  {
  }

  lemma GetKeyKeepsInvariant(cfg: Config, s: Cluster, c: nat, keys: seq<nat>)
    requires Invariant(cfg, s) && c < |s.conns| && c < |s.pools| && |s.slotMap| == SLOTS
    requires cfg.requests > 0 ==> s.generated < cfg.requests || s.pools[c] != []
    ensures match GetKey(cfg, s, c, keys)
            case Unfinished => true
            case Got(t, _) => OneToSend(cfg, t) && c < |t.conns|
            case GaveUp(t) => Invariant(cfg, t)
  {
    hide GetKey, Pooled, InFlight, Extends;
    GetKeyConserves(cfg, s, c, keys);
  }

  lemma CreateKeepsInvariant(cfg: Config, s: Cluster, c: nat, keys: seq<nat>)
    requires Invariant(cfg, s) && Enabled(cfg, s, Created(c, keys))
    ensures Invariant(cfg, Create(cfg, s, c, keys).value)
  {
    hide Invariant, Enabled, OneToSend, GetKey, Send, WaitIsDue;
    MayCreate(cfg, s, c, keys);
    if WaitIsDue(cfg, s) {
      WaitKeepsInvariant(cfg, s, c);
    } else {
      GetKeyKeepsInvariant(cfg, s, c, keys);
      if GetKey(cfg, s, c, keys).Got? {
        SetKeepsInvariant(cfg, GetKey(cfg, s, c, keys).s, c, GetKey(cfg, s, c, keys).key);
        FetchKeepsInvariant(cfg, GetKey(cfg, s, c, keys).s, c, GetKey(cfg, s, c, keys).key);
      }
      ResetKeepsInvariant(cfg, s);
    }
  }

  lemma SetKeepsInvariant(cfg: Config, t: Cluster, c: nat, key: nat)
    requires OneToSend(cfg, t) && c < |t.conns|
    ensures Invariant(cfg, Send(t.(setCount := t.setCount + 1, totSet := t.totSet + 1), c, Request(SetReq, key)))
  {
    hide Invariant, OneToSend, Send;
    RatiosDoNotMatter(cfg, t, t.setCount + 1, t.getCount, t.totSet + 1, t.totWait);
    SendKeepsInvariant(cfg, t.(setCount := t.setCount + 1, totSet := t.totSet + 1), c, Request(SetReq, key));
  }

  lemma FetchKeepsInvariant(cfg: Config, t: Cluster, c: nat, key: nat)
    requires OneToSend(cfg, t) && c < |t.conns|
    ensures Invariant(cfg, Send(t.(getCount := t.getCount + 1), c, Request(GetReq, key)))
  {
    hide Invariant, OneToSend, Send;
    RatiosDoNotMatter(cfg, t, t.setCount, t.getCount + 1, t.totSet, t.totWait);
    SendKeepsInvariant(cfg, t.(getCount := t.getCount + 1), c, Request(GetReq, key));
  }

  lemma ResetKeepsInvariant(cfg: Config, s: Cluster)
    requires Invariant(cfg, s)
    ensures Invariant(cfg, s.(setCount := 0, getCount := 0))
  {
    hide Invariant;
    RatiosDoNotMatter(cfg, s, 0, 0, s.totSet, s.totWait);
  }

  lemma MayCreate(cfg: Config, s: Cluster, c: nat, keys: seq<nat>)
    requires Invariant(cfg, s) && Enabled(cfg, s, Created(c, keys))
    ensures c < |s.conns| == |s.pools| && |s.slotMap| == SLOTS && Create(cfg, s, c, keys).Some?
    ensures cfg.requests > 0 ==> s.generated < cfg.requests || s.pools[c] != []
  {
    hide Create, InFlight, Pooled;
  }

  /** WAIT is sent only where no budget is kept. */
  lemma WaitKeepsInvariant(cfg: Config, s: Cluster, c: nat)
    requires Invariant(cfg, s) && c < |s.conns| && WaitIsDue(cfg, s)
    ensures Invariant(cfg, Send(s.(totWait := s.totWait + 1, generated := s.generated + 1), c, Request(WaitReq, 0)))
  {
    hide InFlight, Pooled, Send;
    SendKeepsInvariant(cfg, s.(totWait := s.totWait + 1, generated := s.generated + 1), c, Request(WaitReq, 0));
  }

  lemma SetupKeepsInvariant(cfg: Config, s: Cluster, c: nat)
    requires Invariant(cfg, s) && c < |s.conns|
    ensures Invariant(cfg, SetConn(s, c, SendSetup(s.conns[c])))
  {
    var c0 := s.conns[c];
    DataInSnoc(c0.pipeline, Request(AuthReq, 0));
    var c1 := if c0.auth.NotSent? then Push(c0, Request(AuthReq, 0)).(auth := Sent) else c0;
    DataInSnoc(c1.pipeline, Request(SelectReq, 0));
    var c2 := if c1.selectDb.NotSent? then Push(c1, Request(SelectReq, 0)).(selectDb := Sent) else c1;
    DataInSnoc(c2.pipeline, Request(SlotsReq, 0));
    SetConnKeeps(s, c, SendSetup(c0));
  }

  /** The popped request leaves the pipeline. */
  lemma PopInFlight(s: Cluster, c: nat)
    requires WellFormed(s) && c < |s.conns| && s.conns[c].pipeline != []
    ensures var t := SetConn(s, c, Pop(s.conns[c]));
            && WellFormed(t)
            && InFlight(s.conns) == InFlight(t.conns) + if IsData(s.conns[c].pipeline[0]) then 1 else 0
  {
    InFlightUpdate(s.conns, c, Pop(s.conns[c]));
  }

  lemma MovedKeeps(s: Cluster, c: nat)
    requires WellFormed(s) && c < |s.conns|
    ensures Keeps(s, HandleMoved(s, c)) && |HandleMoved(s, c).conns| == |s.conns|
  {
    if s.conns[c].slots.SetupDone? {
      PooledUpdate(s.pools, c, []);
      SetConnKeeps(s, c, s.conns[c].(slots := NotSent));
    }
  }

  lemma ReplyKeepsInvariant(cfg: Config, s: Cluster, c: nat, r: Reply)
    requires Invariant(cfg, s) && c < |s.conns| && s.conns[c].pipeline != []
    ensures Invariant(cfg, HandleReply(cfg, s, c, r))
  {
    hide Pooled, InFlight, HandleSlots;
    PopInFlight(s, c);
    var t := SetConn(s, c, Pop(s.conns[c]));
    match s.conns[c].pipeline[0].kind
    case AuthReq =>
      SetConnKeeps(t, c, t.conns[c].(auth := SetupDone));
    case SelectReq =>
      SetConnKeeps(t, c, t.conns[c].(selectDb := SetupDone));
    case SlotsReq =>
      HandleSlotsKeeps(cfg, t, r.shards);
      var u := HandleSlots(cfg, t, r.shards);
      SetConnKeeps(u, c, u.conns[c].(slots := SetupDone));
    case _ =>
      MovedKeeps(t, c);
  }

  /** Every step of a run keeps the books. */
  lemma NextKeepsInvariant(cfg: Config, s: Cluster, e: Event)
    requires Invariant(cfg, s) && Enabled(cfg, s, e)
    ensures Invariant(cfg, Next(cfg, s, e))
  {
    hide Create, HandleReply, SendSetup;
    match e
    case ConnectionUp(c) => SetConnKeeps(s, c, s.conns[c].(state := Connected));
    case ConnectionDown(c) => SetConnKeeps(s, c, Disconnect(s.conns[c]));
    case SetupSent(c) => SetupKeepsInvariant(cfg, s, c);
    case Created(c, keys) => CreateKeepsInvariant(cfg, s, c, keys);
    case Replied(c, r) => ReplyKeepsInvariant(cfg, s, c, r);
  }

  lemma InitialInvariant(cfg: Config, s: Cluster)
    requires Initial(s)
    ensures Invariant(cfg, s)
  {
    assert s.conns[1..] == [] && s.pools[0] == [] && s.pools[1..] == [];
    assert InFlight(s.conns) == DataIn(s.conns[0].pipeline) + InFlight(s.conns[1..]);
    assert Pooled(s.pools) == |s.pools[0]| + Pooled(s.pools[1..]);
  }

  lemma {:induction false} RunKeepsInvariant(cfg: Config, s: Cluster, events: seq<Event>)
    requires Initial(s)
    ensures Run(cfg, s, events).Some? ==> Invariant(cfg, Run(cfg, s, events).value)
    decreases |events|
  {
    hide Enabled, Next;
    if events == [] {
      InitialInvariant(cfg, s);
    } else {
      var front := events[..|events| - 1];
      RunKeepsInvariant(cfg, s, front);
      if Run(cfg, s, events).Some? {
        NextKeepsInvariant(cfg, Run(cfg, s, front).value, events[|events| - 1]);
      }
    }
  }

  /** Conservation over every run: each generated request is processed, in flight, pooled, or was discarded
      with a pool; with a budget no more than that many are generated, so that when the budget is processed
      nothing is left anywhere and nothing was ever discarded. */
  lemma ClusterRunConserves(cfg: Config, s: Cluster, events: seq<Event>)
    requires Initial(s)
    ensures match Run(cfg, s, events)
            case None => true
            case Some(t) =>
              && t.generated == t.processed + InFlight(t.conns) + Pooled(t.pools) + t.discarded
              && (Allowed(cfg) && cfg.requests > 0 ==> t.generated <= cfg.requests)
              && (Allowed(cfg) && cfg.requests > 0 && t.processed >= cfg.requests ==>
                    t.processed == cfg.requests && InFlight(t.conns) == 0 && Pooled(t.pools) == 0 && t.discarded == 0)
  {
    RunKeepsInvariant(cfg, s, events);
  }

  // ----- routing -----

  predicate IsKeyed(r: Request) {
    r.kind.SetReq? || r.kind.GetReq?
  }

  /** A SET or GET of a key in slot j. */
  predicate HasSlot(cfg: Config, r: Request, j: nat) {
    IsKeyed(r) && cfg.keySlot(r.key) == j
  }

  /** The keys of slot j in pool p belong there. */
  predicate PoolRouted(cfg: Config, s: Cluster, j: nat, p: nat)
    requires p < |s.pools| && j < |s.slotMap|
  {
    forall i :: 0 <= i < |s.pools[p]| && cfg.keySlot(s.pools[p][i]) == j ==> s.slotMap[j] == p
  }

  predicate PipelineRouted(cfg: Config, s: Cluster, j: nat, c: nat)
    requires c < |s.conns| && j < |s.slotMap|
  {
    forall i :: 0 <= i < |s.conns[c].pipeline| && HasSlot(cfg, s.conns[c].pipeline[i], j) ==> s.slotMap[j] == c
  }

  /** Every pooled key and every key in flight of slot j is with the connection the slot maps to. */
  predicate Routed(cfg: Config, s: Cluster, j: nat) {
    && j < SLOTS == |s.slotMap|
    && (forall p :: 0 <= p < |s.pools| ==> PoolRouted(cfg, s, j, p))
    && (forall c :: 0 <= c < |s.conns| ==> PipelineRouted(cfg, s, j, c))
  }

  /** Routed survives anything that only takes keys out of pools and requests out of pipelines. */
  predicate Fewer(s: Cluster, t: Cluster) {
    && PoolsShrink(s.pools, t.pools)
    && |s.conns| <= |t.conns|
    && forall c, i :: 0 <= c < |t.conns| && 0 <= i < |t.conns[c].pipeline| && IsKeyed(t.conns[c].pipeline[i]) ==>
         c < |s.conns| && t.conns[c].pipeline[i] in s.conns[c].pipeline
  }

  lemma FewerRouted(cfg: Config, s: Cluster, j: nat, t: Cluster)
    requires Routed(cfg, s, j) && Fewer(s, t) && |t.slotMap| == SLOTS && t.slotMap[j] == s.slotMap[j]
    ensures Routed(cfg, t, j)
  {
    forall p | 0 <= p < |t.pools| ensures PoolRouted(cfg, t, j, p) {
      assert t.pools[p] != [] ==> PoolRouted(cfg, s, j, p);
    }
    forall c | 0 <= c < |t.conns| ensures PipelineRouted(cfg, t, j, c) {
      assert c < |s.conns| ==> PipelineRouted(cfg, s, j, c);
    }
  }

  lemma PoolKeyRouted(cfg: Config, s: Cluster, j: nat, o: nat, key: nat, t: Cluster)
    requires Routed(cfg, s, j) && o < |s.pools| && s.slotMap[cfg.keySlot(key)] == o
    requires t == s.(pools := s.pools[o := s.pools[o] + [key]], generated := s.generated + 1)
    ensures Routed(cfg, t, j)
  {
    forall p | 0 <= p < |t.pools| ensures PoolRouted(cfg, t, j, p) {
      assert PoolRouted(cfg, s, j, p);
    }
    forall d | 0 <= d < |t.conns| ensures PipelineRouted(cfg, t, j, d) {
      assert PipelineRouted(cfg, s, j, d);
    }
  }

  /** Keys are pooled where they belong, and the key returned belongs to the asking connection. */
  lemma {:induction false} SearchRoutes(cfg: Config, s: Cluster, j: nat, c: nat, keys: seq<nat>)
    requires WellFormed(s) && Routed(cfg, s, j) && c < |s.conns|
    ensures match Search(cfg, s, c, keys)
            case Unfinished => true
            case Got(t, key) => Routed(cfg, t, j) && t.slotMap == s.slotMap && s.slotMap[cfg.keySlot(key)] == c
            case GaveUp(t) => Routed(cfg, t, j) && t.slotMap == s.slotMap
    decreases |keys|
  {
    hide Routed, Fewer;
    if keys != [] {
      var o := s.slotMap[cfg.keySlot(keys[0])];
      if o == c {
        RoutedAgain(cfg, s, j, s.(generated := s.generated + 1));
      } else if o < |s.conns| {
        if s.conns[o].state.Disconnected? {
          RoutedAgain(cfg, s, j, s.(conns := s.conns[c := s.conns[c].(slots := NotSent)]));
        } else if !s.conns[o].slots.SetupDone? {
          SearchRoutes(cfg, s, j, c, keys[1..]);
        } else if |s.pools[o]| < KEY_INDEX_QUEUE_MAX_SIZE {
          PoolKey(s, o, keys[0]);
          var t := s.(pools := s.pools[o := s.pools[o] + [keys[0]]], generated := s.generated + 1);
          PoolKeyRouted(cfg, s, j, o, keys[0], t);
          SearchRoutes(cfg, t, j, c, keys[1..]);
        } else {
          SearchRoutes(cfg, s, j, c, keys[1..]);
        }
      }
    }
  }

  /** Counters and setup flags do not matter. */
  lemma RoutedAgain(cfg: Config, s: Cluster, j: nat, t: Cluster)
    requires Routed(cfg, s, j) && t.pools == s.pools && t.slotMap == s.slotMap && |t.conns| == |s.conns|
    requires forall c :: 0 <= c < |t.conns| ==> t.conns[c].pipeline == s.conns[c].pipeline
    ensures Routed(cfg, t, j)
  {
    FewerRouted(cfg, s, j, t);
  }

  lemma GetKeyRoutes(cfg: Config, s: Cluster, j: nat, c: nat, keys: seq<nat>)
    requires WellFormed(s) && Routed(cfg, s, j) && c < |s.conns|
    ensures match GetKey(cfg, s, c, keys)
            case Unfinished => true
            case Got(t, key) =>
              Routed(cfg, t, j) && t.slotMap == s.slotMap && (cfg.keySlot(key) == j ==> s.slotMap[j] == c)
            case GaveUp(t) => Routed(cfg, t, j) && t.slotMap == s.slotMap
  {
    SearchRoutes(cfg, s, j, c, keys);
    if s.pools[c] != [] {
      var t := s.(pools := s.pools[c := s.pools[c][1..]]);
      assert PoolRouted(cfg, s, j, c);
      forall p | 0 <= p < |t.pools| ensures PoolRouted(cfg, t, j, p) {
        assert PoolRouted(cfg, s, j, p);
      }
      forall d | 0 <= d < |t.conns| ensures PipelineRouted(cfg, t, j, d) {
        assert PipelineRouted(cfg, s, j, d);
      }
    }
  }

  lemma SendRoutes(cfg: Config, s: Cluster, j: nat, c: nat, r: Request)
    requires Routed(cfg, s, j) && c < |s.conns| && (HasSlot(cfg, r, j) ==> s.slotMap[j] == c)
    ensures Routed(cfg, Send(s, c, r), j)
  {
    var t := Send(s, c, r);
    forall p | 0 <= p < |t.pools| ensures PoolRouted(cfg, t, j, p) {
      assert PoolRouted(cfg, s, j, p);
    }
    forall d | 0 <= d < |t.conns| ensures PipelineRouted(cfg, t, j, d) {
      assert PipelineRouted(cfg, s, j, d);
    }
  }

  lemma CreateRoutes(cfg: Config, s: Cluster, j: nat, c: nat, keys: seq<nat>)
    requires WellFormed(s) && Routed(cfg, s, j) && c < |s.conns| && Create(cfg, s, c, keys).Some?
    ensures Routed(cfg, Create(cfg, s, c, keys).value, j)
  {
    hide GetKey, Routed, Send;
    GetKeyRoutes(cfg, s, j, c, keys);
    GetKeyConserves(cfg, s, c, keys);
    if WaitIsDue(cfg, s) {
      var t := s.(totWait := s.totWait + 1, generated := s.generated + 1);
      RoutedAgain(cfg, s, j, t);
      SendRoutes(cfg, t, j, c, Request(WaitReq, 0));
    } else if s.setCount < cfg.ratioA {
      match GetKey(cfg, s, c, keys)
      case Got(t, key) =>
        var u := t.(setCount := t.setCount + 1, totSet := t.totSet + 1);
        RoutedAgain(cfg, t, j, u);
        SendRoutes(cfg, u, j, c, Request(SetReq, key));
      case _ =>
    } else if s.getCount < cfg.ratioB {
      match GetKey(cfg, s, c, keys)
      case Got(t, key) =>
        var u := t.(getCount := t.getCount + 1);
        RoutedAgain(cfg, t, j, u);
        SendRoutes(cfg, u, j, c, Request(GetReq, key));
      case _ =>
    } else {
      RoutedAgain(cfg, s, j, s.(setCount := 0, getCount := 0));
    }
  }

  lemma SetupRoutes(cfg: Config, s: Cluster, j: nat, c: nat)
    requires Routed(cfg, s, j) && c < |s.conns|
    ensures Routed(cfg, SetConn(s, c, SendSetup(s.conns[c])), j)
  {
    FewerRouted(cfg, s, j, SetConn(s, c, SendSetup(s.conns[c])));
  }

  /** This event installs the slots of a reply. */
  predicate AppliesSlots(s: Cluster, e: Event) {
    && e.Replied? && e.c < |s.conns|
    && s.conns[e.c].pipeline != [] && s.conns[e.c].pipeline[0].kind.SlotsReq? && e.r.shards != []
  }

  lemma PlainReplyFewer(cfg: Config, s: Cluster, c: nat, r: Reply)
    requires WellFormed(s) && c < |s.conns| && s.conns[c].pipeline != [] && !AppliesSlots(s, Replied(c, r))
    ensures var t := HandleReply(cfg, s, c, r); Fewer(s, t) && SameServers(s.conns, t.conns) && t.slotMap == s.slotMap
  {
    assert |s.conns| == |s.pools|;
    hide HandleSlots, Within, Fewer, WellFormed, SameServers;
    var t := SetConn(s, c, Pop(s.conns[c]));
    PopWithin(s, c);
    var u := HandleReply(cfg, s, c, r);
    assert |u.conns| == |t.conns|;
    LooksFewer(s, t, u, c);
  }

  /** Setup flags, counters and an emptied pool put no key anywhere. */
  lemma LooksFewer(s: Cluster, t: Cluster, u: Cluster, c: nat)
    requires |t.conns| == |s.conns| == |u.conns| && c < |s.conns|
    requires Within(t.conns, s.conns) && SameServers(s.conns, t.conns) && t.pools == s.pools
    requires u.pools == s.pools || (c < |s.pools| && u.pools == s.pools[c := []])
    requires u.conns == t.conns || exists d ::
               && u.conns == t.conns[c := d] && d.pipeline == t.conns[c].pipeline
               && d.address == t.conns[c].address && d.port == t.conns[c].port
    ensures Fewer(s, u) && SameServers(s.conns, u.conns)
  {
    hide Within, SameServers, Fewer;
    if u.conns != t.conns {
      var d :| u.conns == t.conns[c := d] && d.pipeline == t.conns[c].pipeline
             && d.address == t.conns[c].address && d.port == t.conns[c].port;
      SwapWithin(s.conns, t.conns, c, d);
    }
    WithinFewer(s, u);
  }

  predicate Among(a: seq<Request>, b: seq<Request>) {
    forall r :: r in a ==> r in b
  }

  /** Nothing is in flight on t that was not in flight on the same connection of s. */
  predicate Within(t: seq<Conn>, s: seq<Conn>) {
    forall d :: 0 <= d < |t| ==> Among(t[d].pipeline, if d < |s| then s[d].pipeline else [])
  }

  lemma WithinFewer(s: Cluster, t: Cluster)
    requires Within(t.conns, s.conns) && PoolsShrink(s.pools, t.pools) && |s.conns| <= |t.conns|
    ensures Fewer(s, t)
  {
    forall c, i | 0 <= c < |t.conns| && 0 <= i < |t.conns[c].pipeline|
      ensures c < |s.conns| && t.conns[c].pipeline[i] in s.conns[c].pipeline
    {
      assert t.conns[c].pipeline[i] in t.conns[c].pipeline;
      assert Among(t.conns[c].pipeline, if c < |s.conns| then s.conns[c].pipeline else []);
    }
  }

  lemma PopWithin(s: Cluster, c: nat)
    requires c < |s.conns| && s.conns[c].pipeline != []
    ensures var t := SetConn(s, c, Pop(s.conns[c])); Within(t.conns, s.conns) && SameServers(s.conns, t.conns)
  {
    var t := SetConn(s, c, Pop(s.conns[c]));
    forall d | 0 <= d < |t.conns| ensures Among(t.conns[d].pipeline, s.conns[d].pipeline) {
    }
  }

  lemma ExtendsWithin(s: seq<Conn>, t: seq<Conn>, u: seq<Conn>)
    requires Within(t, s) && SameServers(s, t) && Extends(t, u) && |t| == |s|
    ensures Within(u, s) && SameServers(s, u)
  {
    forall d | 0 <= d < |u| ensures Among(u[d].pipeline, if d < |s| then s[d].pipeline else []) {
      assert d < |t| ==> Among(t[d].pipeline, s[d].pipeline);
    }
  }

  /** A connection with the same server and the same requests can take the place of another. */
  lemma SwapWithin(s: seq<Conn>, t: seq<Conn>, c: nat, d: Conn)
    requires Within(t, s) && SameServers(s, t) && c < |t|
    requires d.pipeline == t[c].pipeline && SameServer(d, t[c].address, t[c].port)
    ensures Within(t[c := d], s) && SameServers(s, t[c := d]) && SameServers(t, t[c := d])
  {
    hide Among;
    var u := t[c := d];
    forall k | 0 <= k < |u| ensures Among(u[k].pipeline, if k < |s| then s[k].pipeline else []) {
      assert Among(t[k].pipeline, if k < |s| then s[k].pipeline else []);
    }
  }

  lemma SlotsDoneWithin(s: seq<Conn>, h: Cluster, c: nat)
    requires Within(h.conns, s) && SameServers(s, h.conns) && c < |h.conns|
    ensures var u := SetConn(h, c, h.conns[c].(slots := SetupDone));
            && Within(u.conns, s) && SameServers(s, u.conns) && SameServers(h.conns, u.conns)
            && u.slotMap == h.slotMap && u.pools == h.pools
  {
    hide Within, SameServers;
    SwapWithin(s, h.conns, c, h.conns[c].(slots := SetupDone));
  }

  lemma SlotsPools(cfg: Config, t: Cluster, shards: seq<Shard>)
    requires WellFormed(t)
    ensures PoolsShrink(t.pools, HandleSlots(cfg, t, shards).pools)
  {
    hide WellFormed, ApplyAll, CloseUnused;
    ApplyAllShrinksPools(cfg, t, shards);
  }

  lemma SlotsExtend(cfg: Config, t: Cluster, shards: seq<Shard>)
    requires WellFormed(t)
    ensures Extends(t.conns, HandleSlots(cfg, t, shards).conns)
  {
    hide WellFormed, HandleSlots, Balanced, Extends;
    HandleSlotsKeeps(cfg, t, shards);
  }

  /** What a reply to CLUSTER SLOTS does to the client. */
  lemma SlotsReply(cfg: Config, s: Cluster, c: nat, r: Reply) returns (t: Cluster)
    requires WellFormed(s) && AppliesSlots(s, Replied(c, r))
    ensures t == SetConn(s, c, Pop(s.conns[c])) && WellFormed(t)
    ensures var h := HandleSlots(cfg, t, r.shards);
            var u := HandleReply(cfg, s, c, r);
            && SameServers(s.conns, u.conns) && SameServers(h.conns, u.conns) && u.slotMap == h.slotMap
            && PoolsShrink(s.pools, u.pools) && Within(u.conns, s.conns)
  {
    PopInFlight(s, c);
    t := SetConn(s, c, Pop(s.conns[c]));
    hide WellFormed, HandleSlots, Within, SameServers, PoolsShrink;
    PopWithin(s, c);
    SlotsExtend(cfg, t, r.shards);
    SlotsPools(cfg, t, r.shards);
    var h := HandleSlots(cfg, t, r.shards);
    ExtendsWithin(s.conns, t.conns, h.conns);
    ServersGrow(s.conns, h.conns);
    SlotsDoneWithin(s.conns, h, c);
  }

  lemma ServersGrow(s: seq<Conn>, t: seq<Conn>)
    requires SameServers(s, t)
    ensures |s| <= |t|
  {
  }

  /** A key of slot j is waiting in a pool or for its reply. */
  predicate Pending(cfg: Config, s: Cluster, j: nat) {
    || (exists p, i :: 0 <= p < |s.pools| && 0 <= i < |s.pools[p]| && cfg.keySlot(s.pools[p][i]) == j)
    || (exists c, i :: 0 <= c < |s.conns| && 0 <= i < |s.conns[c].pipeline| && HasSlot(cfg, s.conns[c].pipeline[i], j))
  }

  /** A reply to CLUSTER SLOTS only takes keys away, and changes the slot map as `HandleSlots` does. */
  lemma SlotsReplyFewer(cfg: Config, s: Cluster, c: nat, r: Reply)
    requires WellFormed(s) && AppliesSlots(s, Replied(c, r))
    ensures var u := HandleReply(cfg, s, c, r); Fewer(s, u) && SameServers(s.conns, u.conns) && |u.slotMap| == SLOTS
  {
    assert |s.conns| == |s.pools|;
    hide HandleSlots, HandleReply, WellFormed, Within, PoolsShrink, Fewer;
    var t := SlotsReply(cfg, s, c, r);
    ServersGrow(s.conns, HandleReply(cfg, s, c, r).conns);
    WithinFewer(s, HandleReply(cfg, s, c, r));
    HandleSlotsMaps(cfg, t, r.shards, 0);
  }

  /** The same owner of slot j in the reply means the same entry of the slot map. */
  lemma SlotsReplyOwner(cfg: Config, s: Cluster, c: nat, r: Reply, shards: seq<Shard>, j: nat)
    requires WellFormed(s) && AppliesSlots(s, Replied(c, r)) && j < SLOTS && LeadsTo(s, shards, j)
    ensures var u := HandleReply(cfg, s, c, r);
            |u.slotMap| == SLOTS && (u.slotMap[j] == s.slotMap[j] <==> SameOwner(shards, r.shards, j))
  {
    hide HandleSlots, HandleReply, WellFormed, Within, PoolsShrink, SameOwner;
    var t := SlotsReply(cfg, s, c, r);
    PopWithin(s, c);
    LeadsToExtends(s, t, shards, j);
    SameOwnerKeepsSlot(cfg, t, shards, r.shards, j);
  }

  /** When nothing is added, keys that were in place stay so exactly if their slot stays or none of them is left. */
  lemma FewerExactly(cfg: Config, s: Cluster, j: nat, t: Cluster)
    requires Routed(cfg, s, j) && Fewer(s, t) && |t.slotMap| == SLOTS
    ensures Routed(cfg, t, j) <==> t.slotMap[j] == s.slotMap[j] || !Pending(cfg, t, j)
  {
    if t.slotMap[j] == s.slotMap[j] {
      FewerRouted(cfg, s, j, t);
    } else if Routed(cfg, t, j) {
      NoneLeft(cfg, s, j, t);
    } else if !Pending(cfg, t, j) {
      NoneMisplaced(cfg, t, j);
    }
  }

  lemma NoneLeft(cfg: Config, s: Cluster, j: nat, t: Cluster)
    requires Routed(cfg, s, j) && Routed(cfg, t, j) && Fewer(s, t) && t.slotMap[j] != s.slotMap[j]
    ensures !Pending(cfg, t, j)
  {
    forall p, i | 0 <= p < |t.pools| && 0 <= i < |t.pools[p]| ensures cfg.keySlot(t.pools[p][i]) != j {
      assert PoolRouted(cfg, s, j, p) && PoolRouted(cfg, t, j, p);
    }
    forall c, i | 0 <= c < |t.conns| && 0 <= i < |t.conns[c].pipeline|
      ensures !HasSlot(cfg, t.conns[c].pipeline[i], j)
    {
      assert (c < |s.conns| ==> PipelineRouted(cfg, s, j, c)) && PipelineRouted(cfg, t, j, c);
    }
  }

  lemma NoneMisplaced(cfg: Config, t: Cluster, j: nat)
    requires j < SLOTS == |t.slotMap| && !Pending(cfg, t, j)
    ensures Routed(cfg, t, j)
  {
  }

  /** A step keeps the keys of slot j in place exactly if it leaves the slot with its connection, or no key of the
      slot is waiting when it moves. */
  lemma NextRoutes(cfg: Config, s: Cluster, e: Event, j: nat)
    requires WellFormed(s) && Routed(cfg, s, j) && Enabled(cfg, s, e)
    ensures var t := Next(cfg, s, e);
            && |t.slotMap| == SLOTS && SameServers(s.conns, t.conns)
            && (!AppliesSlots(s, e) ==> t.slotMap == s.slotMap)
            && (Routed(cfg, t, j) <==> t.slotMap[j] == s.slotMap[j] || !Pending(cfg, t, j))
  {
    assert j < SLOTS == |s.slotMap|;
    hide Create, HandleReply, SendSetup, Routed, HandleSlots, Fewer, Pending;
    match e
    case ConnectionUp(c) => RoutedAgain(cfg, s, j, Next(cfg, s, e));
    case ConnectionDown(c) => RoutedAgain(cfg, s, j, Next(cfg, s, e));
    case SetupSent(c) =>
      SetupRoutes(cfg, s, j, c);
      SetupServers(s, c);
    case Created(c, keys) =>
      CreateRoutes(cfg, s, j, c, keys);
      CreateServers(cfg, s, c, keys);
    case Replied(c, r) =>
      if AppliesSlots(s, e) {
        SlotsReplyFewer(cfg, s, c, r);
      } else {
        PlainReplyFewer(cfg, s, c, r);
      }
      FewerExactly(cfg, s, j, Next(cfg, s, e));
  }

  /** A step that leaves the owner of slot j alone keeps its keys in place and its server. */
  lemma NextKeepsOwner(cfg: Config, s: Cluster, e: Event, shards: seq<Shard>, j: nat)
    requires WellFormed(s) && Routed(cfg, s, j) && LeadsTo(s, shards, j) && Enabled(cfg, s, e)
    requires AppliesSlots(s, e) ==> SameOwner(shards, e.r.shards, j)
    ensures var t := Next(cfg, s, e); Routed(cfg, t, j) && LeadsTo(t, shards, j)
  {
    assert j < SLOTS == |s.slotMap|;
    NextRoutes(cfg, s, e, j);
    if AppliesSlots(s, e) {
      assert Next(cfg, s, e) == HandleReply(cfg, s, e.c, e.r);
      hide *;
      SlotsReplyOwner(cfg, s, e.c, e.r, shards, j);
      LeadsToExtends(s, Next(cfg, s, e), shards, j);
    } else {
      hide *;
      LeadsToExtends(s, Next(cfg, s, e), shards, j);
    }
  }

  lemma SetupServers(s: Cluster, c: nat)
    requires c < |s.conns|
    ensures SameServers(s.conns, SetConn(s, c, SendSetup(s.conns[c])).conns)
  {
  }

  lemma CreateServers(cfg: Config, s: Cluster, c: nat, keys: seq<nat>)
    requires WellFormed(s) && c < |s.conns| && Create(cfg, s, c, keys).Some?
    ensures var t := Create(cfg, s, c, keys).value; SameServers(s.conns, t.conns) && t.slotMap == s.slotMap
  {
    hide GetKey, InFlight;
    GetKeyConserves(cfg, s, c, keys);
  }

  // ----- before the slots are known -----

  /** Nothing has been generated: the only connection is either still being set up or closed for good. */
  predicate Waiting(s: Cluster) {
    && |s.conns| == 1 && s.pools == [[]]
    && (s.conns[0].state.Disconnected? || !s.conns[0].slots.SetupDone?)
    && forall i :: 0 <= i < |s.conns[0].pipeline| ==> !IsData(s.conns[0].pipeline[i])
  }

  lemma NextWaits(cfg: Config, s: Cluster, e: Event)
    requires WellFormed(s) && Waiting(s) && Enabled(cfg, s, e) && !AppliesSlots(s, e)
    ensures Waiting(Next(cfg, s, e))
  {
    hide Create, SendSetup, HandleReply, WellFormed;
    match e
    case ConnectionUp(c) =>
    case ConnectionDown(c) =>
    case SetupSent(c) => SetupWaits(s, c);
    case Created(c, keys) => assert false;
    case Replied(c, r) => ReplyWaits(cfg, s, c, r);
  }

  lemma SetupWaits(s: Cluster, c: nat)
    requires Waiting(s) && c < |s.conns|
    ensures Waiting(SetConn(s, c, SendSetup(s.conns[c])))
  {
  }

  lemma ReplyWaits(cfg: Config, s: Cluster, c: nat, r: Reply)
    requires |s.conns| == |s.pools| && Waiting(s) && c < |s.conns| && s.conns[c].pipeline != []
    requires !AppliesSlots(s, Replied(c, r))
    ensures Waiting(HandleReply(cfg, s, c, r))
  {
    hide HandleSlots, HandleMoved;
    assert !IsData(s.conns[c].pipeline[0]);
  }

  /** The first topology finds no key anywhere. */
  lemma FirstTopologyRoutes(cfg: Config, s: Cluster, e: Event, j: nat)
    requires WellFormed(s) && Waiting(s) && Enabled(cfg, s, e) && AppliesSlots(s, e)
    requires j < SLOTS && LastCover(e.r.shards, j).Some?
    ensures var t := Next(cfg, s, e); Routed(cfg, t, j) && LeadsTo(t, e.r.shards, j)
  {
    var u := HandleReply(cfg, s, e.c, e.r);
    hide HandleReply, HandleSlots, WellFormed, LeadsTo;
    WaitingRouted(cfg, s, j);
    var t := SlotsReply(cfg, s, e.c, e.r);
    CoverInstalls(cfg, t, e.r.shards, j);
    LeadsToExtends(HandleSlots(cfg, t, e.r.shards), u, e.r.shards, j);
    SlotsReplyFewer(cfg, s, e.c, e.r);
    WaitingFewer(cfg, s, j, u);
  }

  lemma WaitingRouted(cfg: Config, s: Cluster, j: nat)
    requires WellFormed(s) && Waiting(s) && j < SLOTS
    ensures Routed(cfg, s, j)
  {
  }

  lemma WaitingFewer(cfg: Config, s: Cluster, j: nat, t: Cluster)
    requires Waiting(s) && Fewer(s, t) && j < SLOTS == |t.slotMap|
    ensures Routed(cfg, t, j)
  {
  }

  // ----- routing over runs -----

  /** At every point of the run, the keys of slot j are where the slot maps to. */
  predicate AlwaysRouted(cfg: Config, s: Cluster, events: seq<Event>, j: nat)
    decreases |events|
  {
    && (events != [] ==> AlwaysRouted(cfg, s, events[..|events| - 1], j))
    && match Run(cfg, s, events) case None => false case Some(t) => Routed(cfg, t, j)
  }

  /** Whenever the slot moves to another connection, no key of it is waiting. */
  predicate MovesQuietly(cfg: Config, s: Cluster, events: seq<Event>, j: nat)
    decreases |events|
  {
    events != [] ==>
      && MovesQuietly(cfg, s, events[..|events| - 1], j)
      && match (Run(cfg, s, events[..|events| - 1]), Run(cfg, s, events))
         case (Some(t), Some(u)) =>
           j < |t.slotMap| && j < |u.slotMap| && (t.slotMap[j] == u.slotMap[j] || !Pending(cfg, u, j))
         case _ => false
  }

  /** Over every run, the keys of a slot are always with the connection it maps to if and only if no key of it is
      waiting at the moments it moves. */
  lemma {:induction false} ClusterRunRoutesExactly(cfg: Config, s: Cluster, events: seq<Event>, j: nat)
    requires Initial(s) && Run(cfg, s, events).Some? && j < SLOTS
    ensures AlwaysRouted(cfg, s, events, j) <==> MovesQuietly(cfg, s, events, j)
    decreases |events|
  {
    hide Enabled, Next, Routed, Pending, WellFormed;
    RunKeepsInvariant(cfg, s, events);
    if events == [] {
      InitialWaits(s);
      WaitingRouted(cfg, s, j);
    } else {
      var front, e := events[..|events| - 1], events[|events| - 1];
      ClusterRunRoutesExactly(cfg, s, front, j);
      RunKeepsInvariant(cfg, s, front);
      if AlwaysRouted(cfg, s, front, j) {
        NextRoutes(cfg, Run(cfg, s, front).value, e, j);
      }
    }
  }

  lemma InitialWaits(s: Cluster)
    requires Initial(s)
    ensures WellFormed(s) && Waiting(s)
  {
  }

  /** The topologies installed along a run, in order. */
  function Topologies(cfg: Config, s: Cluster, events: seq<Event>): seq<seq<Shard>>
    decreases |events|
  {
    if events == [] then []
    else
      var front, e := events[..|events| - 1], events[|events| - 1];
      Topologies(cfg, s, front) +
      match Run(cfg, s, front)
      case None => []
      case Some(t) => if AppliesSlots(t, e) then [e.r.shards] else []
  }

  /** The first reply covers slot j, and later ones name the same server for it or do not mention it. */
  predicate Steady(tops: seq<seq<Shard>>, j: nat) {
    tops != [] ==> LastCover(tops[0], j).Some? && forall k :: 0 <= k < |tops| ==> SameOwner(tops[0], tops[k], j)
  }

  lemma {:induction false} RunStaysRouted(cfg: Config, s: Cluster, events: seq<Event>, j: nat)
    requires Initial(s) && Run(cfg, s, events).Some? && j < SLOTS && Steady(Topologies(cfg, s, events), j)
    ensures var t := Run(cfg, s, events).value;
            var tops := Topologies(cfg, s, events);
            if tops == [] then Waiting(t) else Routed(cfg, t, j) && LeadsTo(t, tops[0], j)
    decreases |events|
  {
    hide Enabled, Next, Routed, LeadsTo, SameOwner, LastCover, WellFormed;
    if events == [] {
      InitialWaits(s);
    } else {
      var front, e := events[..|events| - 1], events[|events| - 1];
      var tops, before := Topologies(cfg, s, events), Topologies(cfg, s, front);
      assert forall k :: 0 <= k < |before| ==> before[k] == tops[k];
      RunStaysRouted(cfg, s, front, j);
      RunKeepsInvariant(cfg, s, front);
      var t := Run(cfg, s, front).value;
      if before != [] {
        assert AppliesSlots(t, e) ==> tops[|before|] == e.r.shards;
        NextKeepsOwner(cfg, t, e, tops[0], j);
      } else if AppliesSlots(t, e) {
        FirstTopologyRoutes(cfg, t, e, j);
      } else {
        NextWaits(cfg, t, e);
      }
    }
  }

  /** Routing over every run, slot by slot: once a reply covers slot j, and while no later one gives it to another
      server, the slot leads to that server, and every pooled key and every SET or GET in flight of the slot is with
      its connection, whatever happens to the other slots. */
  lemma SlotStaysRouted(cfg: Config, s: Cluster, events: seq<Event>, j: nat)
    requires Initial(s) && Run(cfg, s, events).Some? && j < SLOTS
    requires Topologies(cfg, s, events) != [] && Steady(Topologies(cfg, s, events), j)
    ensures var t := Run(cfg, s, events).value;
            && LeadsTo(t, Topologies(cfg, s, events)[0], j)
            && (forall p, i :: 0 <= p < |t.pools| && 0 <= i < |t.pools[p]| && cfg.keySlot(t.pools[p][i]) == j ==>
                  t.slotMap[j] == p)
            && (forall c, i ::
                  0 <= c < |t.conns| && 0 <= i < |t.conns[c].pipeline| && HasSlot(cfg, t.conns[c].pipeline[i], j) ==>
                    t.slotMap[j] == c)
  {
    hide Run, Topologies, LeadsTo;
    RunStaysRouted(cfg, s, events, j);
    var t := Run(cfg, s, events).value;
    forall p, i | 0 <= p < |t.pools| && 0 <= i < |t.pools[p]| && cfg.keySlot(t.pools[p][i]) == j
      ensures t.slotMap[j] == p
    {
      assert PoolRouted(cfg, t, j, p);
    }
    forall c, i | 0 <= c < |t.conns| && 0 <= i < |t.conns[c].pipeline| && HasSlot(cfg, t.conns[c].pipeline[i], j)
      ensures t.slotMap[j] == c
    {
      assert PipelineRouted(cfg, t, j, c);
    }
  }

  /** One topology, covering every slot, that later replies repeat: in any order, cut in any way, in part or in full. */
  predicate Stable(tops: seq<seq<Shard>>) {
    forall j :: 0 <= j < SLOTS ==> Steady(tops, j)
  }

  predicate PoolsRouted(cfg: Config, t: Cluster) {
    |t.slotMap| == SLOTS && forall p, i :: 0 <= p < |t.pools| && 0 <= i < |t.pools[p]| ==>
      t.slotMap[cfg.keySlot(t.pools[p][i])] == p
  }

  predicate PipelinesRouted(cfg: Config, t: Cluster) {
    |t.slotMap| == SLOTS && forall c, i ::
      0 <= c < |t.conns| && 0 <= i < |t.conns[c].pipeline| && IsKeyed(t.conns[c].pipeline[i]) ==>
        t.slotMap[cfg.keySlot(t.conns[c].pipeline[i].key)] == c
  }

  /** Routing of all slots: while replies give one topology, the slot map is that topology, and every pooled key and
      every SET or GET in flight is with the connection its slot maps to; no pool exceeds its bound. */
  lemma ClusterRunRoutes(cfg: Config, s: Cluster, events: seq<Event>)
    requires Initial(s) && Run(cfg, s, events).Some?
    requires Topologies(cfg, s, events) != [] && Stable(Topologies(cfg, s, events))
    ensures var t := Run(cfg, s, events).value;
            && Installed(t, Topologies(cfg, s, events)[0])
            && PoolsRouted(cfg, t) && PipelinesRouted(cfg, t)
            && (forall p :: 0 <= p < |t.pools| ==> |t.pools[p]| <= KEY_INDEX_QUEUE_MAX_SIZE)
  {
    hide Run, Topologies, LeadsTo, Steady;
    RunKeepsInvariant(cfg, s, events);
    var t := Run(cfg, s, events).value;
    forall j | 0 <= j < SLOTS ensures LeadsTo(t, Topologies(cfg, s, events)[0], j) {
      SlotStaysRouted(cfg, s, events, j);
    }
    forall p, i | 0 <= p < |t.pools| && 0 <= i < |t.pools[p]| ensures t.slotMap[cfg.keySlot(t.pools[p][i])] == p {
      SlotStaysRouted(cfg, s, events, cfg.keySlot(t.pools[p][i]));
    }
    forall c, i | 0 <= c < |t.conns| && 0 <= i < |t.conns[c].pipeline| && IsKeyed(t.conns[c].pipeline[i])
      ensures t.slotMap[cfg.keySlot(t.conns[c].pipeline[i].key)] == c
    {
      SlotStaysRouted(cfg, s, events, cfg.keySlot(t.conns[c].pipeline[i].key));
    }
  }
}
