/** The plain client with a reconnect interval: one connection that is dropped and reopened every so many
    replies. */
module Reconnect {
  import opened Arithmetic
  import opened ByteStrings
  import opened ClusterState

  datatype Options = Options(requests: nat, pipeline: nat, interval: nat, authenticate: bool, selectDb: bool)

  datatype Kind = Auth | SelectDb | Data

  /** client and its connection; `reconnects` is not a field of the source, it counts the reconnections. */
  datatype Plain = Plain(state: ConnState, auth: SetupState, selectDb: SetupState, pipeline: seq<Kind>,
                         generated: nat, processed: nat, reconnects: nat)

  predicate SetupComplete(s: Plain) {
    s.auth.SetupDone? && s.selectDb.SetupDone?
  }

  /** shard_connection::connect, called by client::connect */
  function Connect(o: Options, s: Plain): Plain {
    s.(state := InProgress,
       auth := if o.authenticate then NotSent else SetupDone,
       selectDb := if o.selectDb then NotSent else SetupDone)
  }

  /** shard_connection::disconnect: the pipeline is left as it is. */
  function Close(s: Plain): Plain {
    s.(state := Disconnected, auth := SetupDone, selectDb := SetupDone)
  }

  function SendSetup(s: Plain): Plain {
    var t := if s.auth.NotSent? then s.(auth := Sent, pipeline := s.pipeline + [Auth]) else s;
    if t.selectDb.NotSent? then t.(selectDb := Sent, pipeline := t.pipeline + [SelectDb]) else t
  }

  /** client::hold_pipeline */
  predicate Hold(o: Options, s: Plain)
    requires s.processed <= s.generated
  {
    || (o.requests > 0 && s.generated >= o.requests)
    || (o.interval > 0 && s.processed % o.interval + (s.generated - s.processed) >= o.interval)
  }

  predicate Finished(o: Options, s: Plain) {
    o.requests > 0 && s.processed >= o.requests
  }

  /** The reply loop of process_response.  A reply to a setup command may be a refusal. */
  datatype Loop = Loop(s: Plain, handled: bool, refused: bool)

  function HandleReplies(s: Plain, handled: bool, replies: seq<bool>): Loop
    requires |replies| <= |s.pipeline|
    decreases |replies|
  {
    if replies == [] then Loop(s, handled, false)
    else
      var t := s.(pipeline := s.pipeline[1..]);
      match s.pipeline[0]
      case Data => HandleReplies(t.(processed := t.processed + 1), true, replies[1..])
      case Auth =>
        if replies[0] then HandleReplies(t.(auth := SetupDone), handled, replies[1..]) else Loop(t, handled, true)
      case SelectDb =>
        if replies[0] then HandleReplies(t.(selectDb := SetupDone), handled, replies[1..]) else Loop(t, handled, true)
  }

  /** Is it time to reconnect? */
  predicate Due(o: Options, l: Loop) {
    o.interval > 0 && l.handled && o.requests != l.s.processed && l.s.processed % o.interval == 0
  }

  /** process_response up to fill_pipeline. */
  function ProcessReplies(o: Options, s: Plain, replies: seq<bool>): Plain
    requires |replies| <= |s.pipeline|
  {
    var l := HandleReplies(s, false, replies);
    if !l.refused && Due(o, l) then Connect(o, Close(l.s)).(reconnects := l.s.reconnects + 1) else l.s
  }

  // ----- runs -----

  datatype Event = Up | Down | SetupSent | Created | Replies(oks: seq<bool>)

  predicate Enabled(o: Options, s: Plain, e: Event)
    requires s.processed <= s.generated
  {
    match e
    case Up => s.state.InProgress?
    case Down => !s.state.Disconnected?
    case SetupSent =>
      s.state.Connected? && !Finished(o, s) && |s.pipeline| < o.pipeline && !SetupComplete(s)
    case Created =>
      s.state.Connected? && !Finished(o, s) && |s.pipeline| < o.pipeline && SetupComplete(s) && !Hold(o, s)
    case Replies(oks) => s.state.Connected? && |oks| <= |s.pipeline|
  }

  function Next(o: Options, s: Plain, e: Event): Plain
    requires s.processed <= s.generated && Enabled(o, s, e)
  {
    match e
    case Up => s.(state := Connected)
    case Down => Close(s)
    case SetupSent => SendSetup(s)
    case Created => s.(pipeline := s.pipeline + [Data], generated := s.generated + 1)
    case Replies(oks) => ProcessReplies(o, s, oks)
  }

  function Run(o: Options, s: Plain, events: seq<Event>): Option<Plain>
    decreases |events|
  {
    if events == [] then Some(s)
    else
      match Run(o, s, events[..|events| - 1])
      case None => None
      case Some(t) =>
        var e := events[|events| - 1];
        if t.processed <= t.generated && Enabled(o, t, e) then Some(Next(o, t, e)) else None
  }

  function Start(o: Options): Plain {
    Connect(o, Plain(Disconnected, SetupDone, SetupDone, [], 0, 0, 0))
  }

  // ----- the invariant -----

  function Count(pipeline: seq<Kind>, k: Kind): nat {
    if pipeline == [] then 0 else (if pipeline[0] == k then 1 else 0) + Count(pipeline[1..], k)
  }

  lemma {:induction false} CountSnoc(pipeline: seq<Kind>, x: Kind, k: Kind)
    ensures Count(pipeline + [x], k) == Count(pipeline, k) + if x == k then 1 else 0
    decreases |pipeline|
  {
    if pipeline == [] {
      assert pipeline + [x] == [x] && [x][1..] == [];
    } else {
      assert (pipeline + [x])[1..] == pipeline[1..] + [x];
      CountSnoc(pipeline[1..], x, k);
    }
  }

  lemma {:induction false} CountNone(pipeline: seq<Kind>)
    requires Count(pipeline, Auth) == 0 && Count(pipeline, SelectDb) == 0 && Count(pipeline, Data) == 0
    ensures pipeline == []
  {
  }

  /** Reconnections due after p replies. */
  function Multiples(o: Options, p: nat): nat {
    if o.interval == 0 || p == 0 then 0
    else if o.requests == p then (p - 1) / o.interval
    else p / o.interval
  }

  /** Requests in flight are those generated and not processed, and together with the replies since the last
      multiple of the interval they never exceed the interval; setup commands are in flight only while
      their state says so, and data never at the same time. */
  predicate Books(o: Options, s: Plain) {
    && s.generated == s.processed + Count(s.pipeline, Data)
    && (o.requests > 0 ==> s.generated <= o.requests)
    && (o.interval > 0 ==> s.processed % o.interval + Count(s.pipeline, Data) <= o.interval)
    && (!s.state.Disconnected? ==>
          && Count(s.pipeline, Auth) <= (if s.auth.Sent? then 1 else 0)
          && Count(s.pipeline, SelectDb) <= (if s.selectDb.Sent? then 1 else 0)
          && (Count(s.pipeline, Data) > 0 ==> SetupComplete(s)))
  }

  predicate Invariant(o: Options, s: Plain) {
    Books(o, s) && s.reconnects == Multiples(o, s.processed)
  }

  lemma OneReply(o: Options, s: Plain, t: Plain)
    requires Books(o, s) && !s.state.Disconnected? && s.pipeline != []
    requires t.pipeline == s.pipeline[1..] && t.generated == s.generated && t.state == s.state
    requires t.processed == s.processed + (if s.pipeline[0].Data? then 1 else 0)
    requires t.auth == s.auth || (s.pipeline[0].Auth? && t.auth.SetupDone?)
    requires t.selectDb == s.selectDb || (s.pipeline[0].SelectDb? && t.selectDb.SetupDone?)
    ensures Books(o, t)
  {
    if o.interval > 0 {
      DivModStep(s.processed, o.interval);
    }
  }

  lemma HeadMeansState(o: Options, s: Plain)
    requires Books(o, s) && !s.state.Disconnected? && s.pipeline != []
    ensures s.pipeline[0].Auth? ==> s.auth.Sent?
    ensures s.pipeline[0].SelectDb? ==> s.selectDb.Sent?
  {
  }

  /** The reply loop keeps the books; data leaves the pipeline only once setup is complete. */
  lemma {:induction false} RepliesKeepBooks(o: Options, s: Plain, handled: bool, replies: seq<bool>)
    requires Books(o, s) && !s.state.Disconnected? && |replies| <= |s.pipeline|
    ensures var l := HandleReplies(s, handled, replies);
            && Books(o, l.s) && l.s.state == s.state && l.s.reconnects == s.reconnects
            && s.processed <= l.s.processed <= s.processed + Count(s.pipeline, Data)
            && (l.handled <==> handled || l.s.processed > s.processed)
            && (SetupComplete(s) ==> SetupComplete(l.s) && !l.refused)
    decreases |replies|
  {
    hide Books;
    if replies != [] {
      HeadMeansState(o, s);
      var t := s.(pipeline := s.pipeline[1..]);
      match s.pipeline[0]
      case Data =>
        var u := t.(processed := t.processed + 1);
        OneReply(o, s, u);
        RepliesKeepBooks(o, u, true, replies[1..]);
      case Auth =>
        OneReply(o, s, t);
        OneReply(o, s, t.(auth := SetupDone));
        if replies[0] {
          RepliesKeepBooks(o, t.(auth := SetupDone), handled, replies[1..]);
        }
      case SelectDb =>
        OneReply(o, s, t);
        OneReply(o, s, t.(selectDb := SetupDone));
        if replies[0] {
          RepliesKeepBooks(o, t.(selectDb := SetupDone), handled, replies[1..]);
        }
    }
  }

  lemma DataMeansSetup(o: Options, s: Plain)
    requires Books(o, s) && !s.state.Disconnected? && Count(s.pipeline, Data) > 0
    ensures SetupComplete(s)
  {
  }

  /** The counts when a data reply reaches a multiple of the interval: it was the last one in flight. */
  lemma LastBeforeMultiple(o: Options, s: Plain)
    requires Books(o, s) && s.pipeline != [] && s.pipeline[0].Data? && o.interval > 0
    requires (s.processed + 1) % o.interval == 0
    ensures Count(s.pipeline[1..], Data) == 0
  {
    DivModStep(s.processed, o.interval);
  }

  /** Within a batch a multiple of the interval is reached only by the last data reply: none is skipped, and
      at one no data is left in flight. */
  lemma {:induction false} NoMultipleSkipped(o: Options, s: Plain, handled: bool, replies: seq<bool>)
    requires Books(o, s) && !s.state.Disconnected? && |replies| <= |s.pipeline| && o.interval > 0
    ensures var l := HandleReplies(s, handled, replies);
            && (forall q :: s.processed < q < l.s.processed ==> q % o.interval != 0)
            && (l.s.processed > s.processed && l.s.processed % o.interval == 0 ==> Count(l.s.pipeline, Data) == 0)
    decreases |replies|
  {
    hide Books;
    if replies != [] {
      var t := s.(pipeline := s.pipeline[1..]);
      match s.pipeline[0]
      case Data =>
        var u := t.(processed := t.processed + 1);
        OneReply(o, s, u);
        NoMultipleSkipped(o, u, true, replies[1..]);
        RepliesKeepBooks(o, u, true, replies[1..]);
        BooksCount(o, u);
        var l := HandleReplies(u, true, replies[1..]);
        BooksCount(o, l.s);
        RepliesKeepGenerated(u, true, replies[1..]);
        if u.processed % o.interval == 0 {
          LastBeforeMultiple(o, s);
        }
      case Auth =>
        OneReply(o, s, t.(auth := SetupDone));
        if replies[0] {
          NoMultipleSkipped(o, t.(auth := SetupDone), handled, replies[1..]);
        }
      case SelectDb =>
        OneReply(o, s, t.(selectDb := SetupDone));
        if replies[0] {
          NoMultipleSkipped(o, t.(selectDb := SetupDone), handled, replies[1..]);
        }
    }
  }

  lemma BooksCount(o: Options, s: Plain)
    requires Books(o, s)
    ensures s.generated == s.processed + Count(s.pipeline, Data)
  {
  }

  lemma {:induction false} RepliesKeepGenerated(s: Plain, handled: bool, replies: seq<bool>)
    requires |replies| <= |s.pipeline|
    ensures HandleReplies(s, handled, replies).s.generated == s.generated
    decreases |replies|
  {
    if replies != [] {
      var t := s.(pipeline := s.pipeline[1..]);
      match s.pipeline[0]
      case Data => RepliesKeepGenerated(t.(processed := t.processed + 1), true, replies[1..]);
      case Auth => RepliesKeepGenerated(t.(auth := SetupDone), handled, replies[1..]);
      case SelectDb => RepliesKeepGenerated(t.(selectDb := SetupDone), handled, replies[1..]);
    }
  }

  /** When a reconnection is due nothing is in flight, setup commands included: the assertion before it holds. */
  lemma DueMeansIdle(o: Options, s: Plain, replies: seq<bool>)
    requires Books(o, s) && !s.state.Disconnected? && |replies| <= |s.pipeline|
    requires Due(o, HandleReplies(s, false, replies))
    ensures HandleReplies(s, false, replies).s.pipeline == []
  {
    RepliesKeepBooks(o, s, false, replies);
    NoMultipleSkipped(o, s, false, replies);
    DataMeansSetup(o, s);
    CountNone(HandleReplies(s, false, replies).s.pipeline);
  }

  lemma {:induction false} NoMultipleBetween(r: nat, p: nat, q: nat)
    requires r > 0 && p <= q && forall x :: p < x <= q ==> x % r != 0
    ensures q / r == p / r
    decreases q - p
  {
    if p < q {
      NoMultipleBetween(r, p, q - 1);
      DivModStep(q - 1, r);
    }
  }

  /** A batch from p to q > p replies is due for a reconnection exactly when it brings a new one into the count. */
  lemma OneMoreReconnection(o: Options, p: nat, q: nat)
    requires o.interval > 0 && p < q && (o.requests > 0 ==> q <= o.requests)
    requires forall x :: p < x < q ==> x % o.interval != 0
    ensures Multiples(o, q) == Multiples(o, p) + if o.requests != q && q % o.interval == 0 then 1 else 0
  {
    NoMultipleBetween(o.interval, p, q - 1);
    DivModStep(q - 1, o.interval);
    DivModUnique(0, o.interval, 0, 0);
  }

  lemma ConnectKeepsBooks(o: Options, s: Plain)
    requires Books(o, s) && s.pipeline == []
    ensures Books(o, Connect(o, Close(s)).(reconnects := s.reconnects + 1))
  {
  }

  lemma BooksBudget(o: Options, s: Plain)
    requires Books(o, s) && o.requests > 0
    ensures s.processed <= o.requests
  {
  }

  /** process_response keeps the books and reconnects exactly when a multiple of the interval is reached. */
  lemma ProcessKeepsInvariant(o: Options, s: Plain, replies: seq<bool>)
    requires Invariant(o, s) && s.state.Connected? && |replies| <= |s.pipeline|
    ensures Invariant(o, ProcessReplies(o, s, replies))
  {
    hide Books, HandleReplies, Multiples, Count;
    RepliesKeepBooks(o, s, false, replies);
    var l := HandleReplies(s, false, replies);
    if l.s.processed > s.processed {
      DataMeansSetup(o, s);
      if o.requests > 0 {
        BooksBudget(o, l.s);
      }
      if o.interval > 0 {
        NoMultipleSkipped(o, s, false, replies);
        OneMoreReconnection(o, s.processed, l.s.processed);
      } else {
        NoReconnections(o, s.processed, l.s.processed);
      }
      if Due(o, l) {
        DueMeansIdle(o, s, replies);
        ConnectKeepsBooks(o, l.s);
      }
    }
  }

  lemma NoReconnections(o: Options, p: nat, q: nat)
    requires o.interval == 0
    ensures Multiples(o, p) == 0 && Multiples(o, q) == 0
  {
  }

  lemma NextKeepsInvariant(o: Options, s: Plain, e: Event)
    requires Invariant(o, s) && Enabled(o, s, e)
    ensures Invariant(o, Next(o, s, e))
  {
    hide ProcessReplies, Multiples;
    match e
    case Up =>
    case Down =>
    case SetupSent =>
      var t := if s.auth.NotSent? then s.(auth := Sent, pipeline := s.pipeline + [Auth]) else s;
      CountSnoc(s.pipeline, Auth, Auth);
      CountSnoc(s.pipeline, Auth, SelectDb);
      CountSnoc(s.pipeline, Auth, Data);
      CountSnoc(t.pipeline, SelectDb, Auth);
      CountSnoc(t.pipeline, SelectDb, SelectDb);
      CountSnoc(t.pipeline, SelectDb, Data);
    case Created =>
      CountSnoc(s.pipeline, Data, Auth);
      CountSnoc(s.pipeline, Data, SelectDb);
      CountSnoc(s.pipeline, Data, Data);
    case Replies(oks) =>
      ProcessKeepsInvariant(o, s, oks);
  }

  lemma {:induction false} RunKeepsInvariant(o: Options, events: seq<Event>)
    ensures Run(o, Start(o), events).Some? ==> Invariant(o, Run(o, Start(o), events).value)
    decreases |events|
  {
    hide Next, Enabled;
    if events == [] {
      StartInvariant(o);
    } else {
      RunKeepsInvariant(o, events[..|events| - 1]);
      if Run(o, Start(o), events).Some? {
        NextKeepsInvariant(o, Run(o, Start(o), events[..|events| - 1]).value, events[|events| - 1]);
      }
    }
  }

  lemma StartInvariant(o: Options)
    ensures Invariant(o, Start(o))
  {
    if o.interval > 0 {
      DivModUnique(0, o.interval, 0, 0);
    }
  }

  /** Reconnect safety over every run: replies since the last multiple of the interval plus requests in flight
      stay within the interval, and a full run of n requests has reconnected floor((n - 1) / interval) times. */
  lemma ReconnectRunIsSafe(o: Options, events: seq<Event>)
    requires o.interval > 0
    ensures match Run(o, Start(o), events)
            case None => true
            case Some(t) =>
              && t.processed <= t.generated
              && t.processed % o.interval + (t.generated - t.processed) <= o.interval
              && (o.requests > 0 && t.processed == o.requests ==> t.reconnects == (o.requests - 1) / o.interval)
              && (t.processed != o.requests ==> t.reconnects == t.processed / o.interval)
  {
    hide Run;
    RunKeepsInvariant(o, events);
    DivModUnique(0, o.interval, 0, 0);
  }

  /** In every reachable state, whatever batch of replies comes in: if it makes a reconnection due, the pipeline
      is empty, and no multiple of the interval is passed over inside the batch. */
  lemma ReconnectRunNeverAsserts(o: Options, events: seq<Event>, oks: seq<bool>)
    requires o.interval > 0 && Run(o, Start(o), events).Some?
    requires Run(o, Start(o), events).value.state.Connected? && |oks| <= |Run(o, Start(o), events).value.pipeline|
    ensures var s := Run(o, Start(o), events).value;
            var l := HandleReplies(s, false, oks);
            && (Due(o, l) ==> l.s.pipeline == [])
            && forall q :: s.processed < q < l.s.processed ==> q % o.interval != 0
  {
    hide Run, HandleReplies;
    RunKeepsInvariant(o, events);
    var s := Run(o, Start(o), events).value;
    NoMultipleSkipped(o, s, false, oks);
    if Due(o, HandleReplies(s, false, oks)) {
      DueMeansIdle(o, s, oks);
    }
  }

  /** The client's callbacks in their own form. */
  class Client {
    const o: Options
    var state: ConnState
    var auth: SetupState
    var selectDb: SetupState
    var pipeline: seq<Kind>
    var generated: nat
    var processed: nat
    ghost var reconnects: nat

    ghost function View(): Plain
      reads this
    {
      Plain(state, auth, selectDb, pipeline, generated, processed, reconnects)
    }

    constructor (o: Options)
      ensures this.o == o && View() == Start(o)
    {
      this.o := o;
      state, pipeline, generated, processed, reconnects := InProgress, [], 0, 0, 0;
      auth := if o.authenticate then NotSent else SetupDone;
      selectDb := if o.selectDb then NotSent else SetupDone;
    }

    /** The reply loop of process_response; it stops at a refused setup command. */
    method HandleBatch(oks: seq<bool>) returns (handled: bool, refused: bool)
      requires |oks| <= |pipeline|
      modifies this`pipeline, this`auth, this`selectDb, this`processed
      ensures HandleReplies(old(View()), false, oks) == Loop(View(), handled, refused)
    {
      handled, refused := false, false;
      for i := 0 to |oks|
        invariant !refused && |oks| - i <= |pipeline|
        invariant HandleReplies(old(View()), false, oks) == HandleReplies(View(), handled, oks[i..])
      {
        assert oks[i..][0] == oks[i] && oks[i..][1..] == oks[i + 1..];
        var req := pipeline[0];
        pipeline := pipeline[1..];
        match req
        case Auth =>
          if !oks[i] {
            refused := true;
            return;
          }
          auth := SetupDone;
        case SelectDb =>
          if !oks[i] {
            refused := true;
            return;
          }
          selectDb := SetupDone;
        case Data =>
          processed := processed + 1;
          handled := true;
      }
    }

    /** process_response up to fill_pipeline, with its assertion before reconnecting. */
    method ProcessResponse(oks: seq<bool>)
      requires Invariant(o, View()) && state.Connected? && |oks| <= |pipeline|
      modifies this
      ensures Invariant(o, View()) && View() == ProcessReplies(o, old(View()), oks)
    {
      hide HandleReplies, Invariant;
      ghost var s := View();
      InvariantBooks(o, s);
      ProcessKeepsInvariant(o, s, oks);
      var handled, refused := HandleBatch(oks);
      if refused {
        return;
      }
      if o.interval > 0 && handled && o.requests != processed && processed % o.interval == 0 {
        DueMeansIdle(o, s, oks);
        assert pipeline == [];
        state := InProgress;
        auth := if o.authenticate then NotSent else SetupDone;
        selectDb := if o.selectDb then NotSent else SetupDone;
        reconnects := reconnects + 1;
      }
    }
  }

  lemma InvariantBooks(o: Options, s: Plain)
    requires Invariant(o, s)
    ensures Books(o, s)
  {
  }
}
