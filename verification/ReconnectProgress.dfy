/** The plain client gets its work done: when it holds back, what must be accepted before data, and that no run gets
    stuck. */
module ReconnectProgress {
  import opened Arithmetic
  import opened ByteStrings
  import opened ClusterState
  import opened Reconnect

  // ----- holding back -----

  /** The client holds back exactly when the budget is used up, or when the requests up to the next multiple of the
      interval have all been generated and some of them are still unanswered. */
  lemma HoldsExactly(o: Options, s: Plain)
    requires Books(o, s)
    ensures Hold(o, s) <==>
            || (o.requests > 0 && s.generated == o.requests)
            || (o.interval > 0 && s.generated > s.processed && s.generated % o.interval == 0)
  {
    if o.interval > 0 {
      hide Books;
      var r, k := o.interval, s.generated - s.processed;
      BooksBound(o, s);
      var q, m := s.processed / r, s.processed % r;
      assert s.processed == q * r + m;
      if m + k == r {
        assert s.generated == (q + 1) * r;
        DivModUnique(s.generated, r, q + 1, 0);
      } else {
        DivModUnique(s.generated, r, q, m + k);
      }
    }
  }

  lemma BooksBound(o: Options, s: Plain)
    requires Books(o, s) && o.interval > 0
    ensures s.processed <= s.generated && s.processed % o.interval + (s.generated - s.processed) <= o.interval
  {
  }

  /** A connected client that is set up and has nothing in flight may create a request while its budget lasts. */
  lemma MayGoOn(o: Options, s: Plain)
    requires Books(o, s) && s.state.Connected? && SetupComplete(s) && s.pipeline == []
    requires o.pipeline > 0 && (o.requests > 0 ==> s.processed < o.requests)
    ensures Enabled(o, s, Created)
  {
    HoldsExactly(o, s);
  }

  /** The same in every reachable state. */
  lemma RunMayGoOn(o: Options, events: seq<Event>)
    requires Run(o, Start(o), events).Some?
    requires var s := Run(o, Start(o), events).value; s.state.Connected? && SetupComplete(s) && s.pipeline == []
    requires var s := Run(o, Start(o), events).value; o.pipeline > 0 && (o.requests > 0 ==> s.processed < o.requests)
    ensures Run(o, Start(o), events + [Created]).Some?
  {
    RunKeepsInvariant(o, events);
    MayGoOn(o, Run(o, Start(o), events).value);
    assert (events + [Created])[..|events + [Created]| - 1] == events;
    hide Next, Enabled;
  }

  // ----- runs in which nothing goes wrong -----

  predicate AllAccept(oks: seq<bool>) {
    forall i :: 0 <= i < |oks| ==> oks[i]
  }

  /** The connection does not break down and no setup command is refused. */
  predicate Smooth(e: Event) {
    !e.Down? && (e.Replies? ==> AllAccept(e.oks))
  }

  /** Setup commands recorded as sent are in flight, and nothing is in flight while connecting or before they are
      sent. */
  predicate Healthy(o: Options, s: Plain) {
    && Invariant(o, s) && !s.state.Disconnected?
    && (s.auth.Sent? <==> Count(s.pipeline, Auth) > 0) && (s.selectDb.Sent? <==> Count(s.pipeline, SelectDb) > 0)
    && (s.state.InProgress? || s.auth.NotSent? || s.selectDb.NotSent? ==> s.pipeline == [])
  }

  /** From s to t the requests taken are accounted for: data is processed, setup is done. */
  predicate Settled(s: Plain, t: Plain) {
    && t.state == s.state && t.processed == s.processed + Count(s.pipeline, Data) - Count(t.pipeline, Data)
    && t.auth == (if Count(t.pipeline, Auth) < Count(s.pipeline, Auth) then SetupDone else s.auth)
    && t.selectDb == (if Count(t.pipeline, SelectDb) < Count(s.pipeline, SelectDb) then SetupDone else s.selectDb)
    && forall k :: Count(t.pipeline, k) <= Count(s.pipeline, k)
  }

  /** One accepted reply: the oldest request is taken. */
  function Accept(s: Plain): Plain
    requires s.pipeline != []
  {
    var t := s.(pipeline := s.pipeline[1..]);
    match s.pipeline[0]
    case Data => t.(processed := t.processed + 1)
    case Auth => t.(auth := SetupDone)
    case SelectDb => t.(selectDb := SetupDone)
  }

  lemma AcceptSettles(s: Plain)
    requires s.pipeline != []
    ensures Settled(s, Accept(s))
  {
  }

  lemma SettledOnward(s: Plain, t: Plain, u: Plain)
    requires Settled(s, t) && Settled(t, u)
    ensures Settled(s, u)
  {
    hide Count;
  }

  lemma AcceptHandles(s: Plain, handled: bool, oks: seq<bool>)
    requires oks != [] && |oks| <= |s.pipeline| && oks[0]
    ensures Accept(s).pipeline == s.pipeline[1..]
    ensures HandleReplies(s, handled, oks) == HandleReplies(Accept(s), handled || s.pipeline[0].Data?, oks[1..])
  {
  }

  /** Accepted replies take requests and settle what they were about. */
  lemma {:induction false} RepliesSettle(s: Plain, handled: bool, oks: seq<bool>)
    requires |oks| <= |s.pipeline| && AllAccept(oks)
    ensures var l := HandleReplies(s, handled, oks);
            && !l.refused && l.s.pipeline == s.pipeline[|oks|..] && Settled(s, l.s)
    decreases |oks|
  {
    if oks == [] {
      assert s.pipeline[0..] == s.pipeline;
    } else {
      assert AllAccept(oks[1..]) && oks[0];
      AcceptHandles(s, handled, oks);
      AcceptSettles(s);
      hide *;
      assert s.pipeline[1..][|oks| - 1..] == s.pipeline[|oks|..];
      RepliesSettle(Accept(s), handled || s.pipeline[0].Data?, oks[1..]);
      SettledOnward(s, Accept(s), HandleReplies(s, handled, oks).s);
    }
  }

  lemma SentOnce(o: Options, s: Plain)
    requires Books(o, s) && !s.state.Disconnected?
    ensures Count(s.pipeline, Auth) <= 1 && Count(s.pipeline, SelectDb) <= 1
    ensures Count(s.pipeline, Data) > 0 ==> SetupComplete(s)
  {
  }

  lemma RepliesHealthy(o: Options, s: Plain, oks: seq<bool>)
    requires Healthy(o, s) && s.state.Connected? && |oks| <= |s.pipeline| && AllAccept(oks)
    ensures Healthy(o, ProcessReplies(o, s, oks))
  {
    hide HandleReplies, Books, Multiples, Count;
    ProcessKeepsInvariant(o, s, oks);
    RepliesSettle(s, false, oks);
    SentOnce(o, s);
    var l := HandleReplies(s, false, oks);
    if Due(o, l) {
      DueMeansIdle(o, s, oks);
      NoneInFlight();
    }
  }

  lemma NoneInFlight()
    ensures forall k :: Count([], k) == 0
  {
  }

  lemma SmoothKeepsHealthy(o: Options, s: Plain, e: Event)
    requires Healthy(o, s) && Enabled(o, s, e) && Smooth(e)
    ensures Healthy(o, Next(o, s, e))
  {
    NextKeepsInvariant(o, s, e);
    hide Invariant, ProcessReplies;
    match e
    case Up =>
    case SetupSent =>
      var t := if s.auth.NotSent? then s.(auth := Sent, pipeline := s.pipeline + [Auth]) else s;
      CountSnoc(s.pipeline, Auth, Auth);
      CountSnoc(s.pipeline, Auth, SelectDb);
      CountSnoc(t.pipeline, SelectDb, Auth);
      CountSnoc(t.pipeline, SelectDb, SelectDb);
    case Created =>
      CountSnoc(s.pipeline, Data, Auth);
      CountSnoc(s.pipeline, Data, SelectDb);
    case Replies(oks) => RepliesHealthy(o, s, oks);
  }

  // ----- getting on -----

  /** How far the client is from its next reply to a data request. */
  function Stage(s: Plain): nat {
    if s.state.InProgress? then 4
    else if !SetupComplete(s) then (if s.pipeline == [] then 3 else 2)
    else if s.pipeline == [] then 1 else 0
  }

  function Accepting(n: nat): (oks: seq<bool>)
    ensures |oks| == n && AllAccept(oks)
  {
    seq(n, _ => true)
  }

  /** A healthy client always has a step that gets it on. */
  function Choice(s: Plain): Event {
    if s.state.InProgress? then Up
    else if s.pipeline != [] then Replies(Accepting(|s.pipeline|))
    else if SetupComplete(s) then Created else SetupSent
  }

  lemma ChoiceGetsOn(o: Options, s: Plain)
    requires Healthy(o, s) && o.requests > 0 && o.pipeline > 0 && s.processed < o.requests
    ensures s.processed <= s.generated && Enabled(o, s, Choice(s)) && Smooth(Choice(s))
    ensures var t := Next(o, s, Choice(s));
            s.processed < t.processed || (t.processed == s.processed && Stage(t) < Stage(s))
  {
    if s.state.Connected? && s.pipeline != [] {
      AnsweredAll(o, s);
    } else if s.state.Connected? && SetupComplete(s) {
      MayGoOn(o, s);
    }
  }

  /** When everything in flight is answered, a data reply has come in or the setup is complete. */
  lemma AnsweredAll(o: Options, s: Plain)
    requires Healthy(o, s) && s.state.Connected? && s.pipeline != []
    ensures var t := ProcessReplies(o, s, Accepting(|s.pipeline|));
            s.processed < t.processed || (t.processed == s.processed && Stage(t) < Stage(s))
  {
    var oks := Accepting(|s.pipeline|);
    RepliesSettle(s, false, oks);
    RepliesKeepBooks(o, s, false, oks);
    SentOnce(o, s);
    NoneInFlight();
    var l := HandleReplies(s, false, oks);
    assert l.s.pipeline == [];
    hide HandleReplies, Invariant, Count;
    if SetupComplete(s) {
      SomethingInFlight(s.pipeline);
    }
  }

  lemma {:induction false} SomethingInFlight(pipeline: seq<Kind>)
    requires pipeline != []
    ensures Count(pipeline, Auth) > 0 || Count(pipeline, SelectDb) > 0 || Count(pipeline, Data) > 0
  {
  }

  // ----- whole runs -----

  lemma {:induction false} RunThen(o: Options, s: Plain, a: seq<Event>, b: seq<Event>)
    requires Run(o, s, a).Some?
    ensures Run(o, s, a + b) == Run(o, Run(o, s, a).value, b)
    decreases |b|
  {
    hide Enabled, Next;
    if b == [] {
      assert a + b == a;
    } else {
      RunThen(o, s, a, b[..|b| - 1]);
      assert (a + b)[..|a + b| - 1] == a + b[..|b| - 1];
    }
  }

  lemma RunOne(o: Options, s: Plain, e: Event)
    requires s.processed <= s.generated && Enabled(o, s, e)
    ensures Run(o, s, [e]) == Some(Next(o, s, e))
  {
    hide Enabled, Next;
    var none: seq<Event> := [];
    assert [e][..0] == none && Run(o, s, none) == Some(s);
  }

  lemma HealthyBudget(o: Options, s: Plain)
    requires Healthy(o, s) && o.requests > 0
    ensures s.processed <= o.requests
  {
  }

  /** From every healthy state the budget can be worked off. */
  lemma {:induction false} WorksOff(o: Options, s: Plain) returns (events: seq<Event>)
    requires Healthy(o, s) && o.requests > 0 && o.pipeline > 0
    ensures Run(o, s, events).Some? && Run(o, s, events).value.processed == o.requests
    decreases o.requests - s.processed, Stage(s)
  {
    HealthyBudget(o, s);
    events := [];
    if s.processed < o.requests {
      hide Run, Healthy, Enabled, Next;
      ChoiceGetsOn(o, s);
      SmoothKeepsHealthy(o, s, Choice(s));
      HealthyBudget(o, Next(o, s, Choice(s)));
      RunOne(o, s, Choice(s));
      var rest := WorksOff(o, Next(o, s, Choice(s)));
      RunThen(o, s, [Choice(s)], rest);
      events := [Choice(s)] + rest;
    }
  }

  lemma {:induction false} SmoothRunHealthy(o: Options, events: seq<Event>)
    requires Run(o, Start(o), events).Some? && forall i :: 0 <= i < |events| ==> Smooth(events[i])
    ensures Healthy(o, Run(o, Start(o), events).value)
    decreases |events|
  {
    if events == [] {
      StartInvariant(o);
      NoneInFlight();
    } else {
      hide Enabled, Next, Healthy, Smooth;
      SmoothRunHealthy(o, events[..|events| - 1]);
      HealthyShape(o, Run(o, Start(o), events[..|events| - 1]).value);
      SmoothKeepsHealthy(o, Run(o, Start(o), events[..|events| - 1]).value, events[|events| - 1]);
    }
  }

  lemma HealthyShape(o: Options, s: Plain)
    requires Healthy(o, s)
    ensures s.processed <= s.generated
  {
  }

  /** No run gets stuck: as long as the connection has not broken down and no setup command was refused, it can be
      continued until the whole budget has been answered, with one reconnection at every multiple of the interval on
      the way but the last. */
  lemma EveryRunCanComplete(o: Options, events: seq<Event>) returns (more: seq<Event>)
    requires o.requests > 0 && o.pipeline > 0
    requires Run(o, Start(o), events).Some? && forall i :: 0 <= i < |events| ==> Smooth(events[i])
    ensures match Run(o, Start(o), events + more)
            case None => false
            case Some(t) =>
              && t.processed == t.generated == o.requests
              && t.reconnects == if o.interval == 0 then 0 else (o.requests - 1) / o.interval
  {
    SmoothRunHealthy(o, events);
    more := WorksOff(o, Run(o, Start(o), events).value);
    RunThen(o, Start(o), events, more);
    RunKeepsInvariant(o, events + more);
    hide Run;
  }

  // ----- setup before data -----

  /** The batch holds an accepting reply to a command of kind k, with no refusal before it. */
  predicate AcceptedIn(pipeline: seq<Kind>, oks: seq<bool>, k: Kind)
    requires |oks| <= |pipeline|
    decreases |oks|
  {
    oks != [] &&
    ((pipeline[0] == k && oks[0]) || ((pipeline[0].Data? || oks[0]) && AcceptedIn(pipeline[1..], oks[1..], k)))
  }

  function Flag(s: Plain, k: Kind): SetupState {
    if k.Auth? then s.auth else s.selectDb
  }

  predicate Wanted(o: Options, k: Kind) {
    if k.Auth? then o.authenticate else o.selectDb
  }

  /** Since the last time the client connected, a command of kind k has been accepted. */
  predicate AcceptedSince(o: Options, events: seq<Event>, k: Kind)
    decreases |events|
  {
    events != [] &&
    match (Run(o, Start(o), events[..|events| - 1]), Run(o, Start(o), events))
    case (Some(t), Some(u)) =>
      var e := events[|events| - 1];
      && u.reconnects == t.reconnects
      && ((e.Replies? && |e.oks| <= |t.pipeline| && AcceptedIn(t.pipeline, e.oks, k)) ||
          AcceptedSince(o, events[..|events| - 1], k))
    case _ => false
  }

  lemma {:induction false} RepliesFlag(s: Plain, handled: bool, oks: seq<bool>, k: Kind)
    requires |oks| <= |s.pipeline| && !k.Data?
    ensures var l := HandleReplies(s, handled, oks);
            && l.s.state == s.state && l.s.reconnects == s.reconnects
            && (Flag(l.s, k).SetupDone? <==> Flag(s, k).SetupDone? || AcceptedIn(s.pipeline, oks, k))
    decreases |oks|
  {
    if oks != [] {
      var t := s.(pipeline := s.pipeline[1..]);
      match s.pipeline[0]
      case Data => RepliesFlag(t.(processed := t.processed + 1), true, oks[1..], k);
      case Auth => RepliesFlag(t.(auth := SetupDone), handled, oks[1..], k);
      case SelectDb => RepliesFlag(t.(selectDb := SetupDone), handled, oks[1..], k);
    }
  }

  lemma FlagStep(o: Options, s: Plain, e: Event, k: Kind)
    requires s.processed <= s.generated && Enabled(o, s, e) && !k.Data?
    ensures var t := Next(o, s, e);
            && (!t.state.Disconnected? ==>
                  (Flag(t, k).SetupDone? <==>
                   if t.reconnects != s.reconnects then !Wanted(o, k)
                   else Flag(s, k).SetupDone? || (e.Replies? && AcceptedIn(s.pipeline, e.oks, k))))
            && (s.state.Disconnected? ==> t.state.Disconnected?)
  {
    if e.Replies? {
      RepliesFlag(s, false, e.oks, k);
      hide HandleReplies, AcceptedIn;
    }
  }

  /** While connected or connecting, authentication (or the choice of a database) is settled exactly if it is not
      asked for or has been accepted since the client last connected. */
  lemma {:induction false} SetupLaw(o: Options, events: seq<Event>, k: Kind)
    requires Run(o, Start(o), events).Some? && !k.Data?
    ensures var t := Run(o, Start(o), events).value;
            !t.state.Disconnected? ==> (Flag(t, k).SetupDone? <==> !Wanted(o, k) || AcceptedSince(o, events, k))
    decreases |events|
  {
    if events != [] {
      hide Enabled, Next, AcceptedIn, Flag, Wanted;
      SetupLaw(o, events[..|events| - 1], k);
      FlagStep(o, Run(o, Start(o), events[..|events| - 1]).value, events[|events| - 1], k);
    }
  }

  /** No data request is created before the setup asked for has been accepted on the connection at hand. */
  lemma DataAfterSetup(o: Options, events: seq<Event>)
    requires Run(o, Start(o), events + [Created]).Some?
    ensures o.authenticate ==> AcceptedSince(o, events, Auth)
    ensures o.selectDb ==> AcceptedSince(o, events, SelectDb)
  {
    var all := events + [Created];
    assert all[..|all| - 1] == events;
    SetupLaw(o, events, Auth);
    SetupLaw(o, events, SelectDb);
    hide Run, AcceptedSince;
  }

  /** Authentication goes out before the choice of a database, each only if it has not been sent. */
  lemma SetupInOrder(s: Plain)
    ensures var t := SendSetup(s);
            && !t.auth.NotSent? && !t.selectDb.NotSent? && s.pipeline <= t.pipeline
            && Count(t.pipeline[|s.pipeline|..], Auth) == (if s.auth.NotSent? then 1 else 0)
            && Count(t.pipeline[|s.pipeline|..], SelectDb) == (if s.selectDb.NotSent? then 1 else 0)
            && Count(t.pipeline[|s.pipeline|..], Data) == 0
            && (s.auth.NotSent? ==> t.pipeline[|s.pipeline|] == Auth)
  {
    var a: seq<Kind> := if s.auth.NotSent? then [Auth] else [];
    var b: seq<Kind> := if s.selectDb.NotSent? then [SelectDb] else [];
    assert SendSetup(s).pipeline == s.pipeline + (a + b);
    assert SendSetup(s).pipeline[|s.pipeline|..] == a + b;
    CountSnoc([], Auth, Auth);
    CountSnoc([], Auth, SelectDb);
    CountSnoc([], Auth, Data);
    CountSnoc(a, SelectDb, Auth);
    CountSnoc(a, SelectDb, SelectDb);
    CountSnoc(a, SelectDb, Data);
    assert [] + [Auth] == [Auth];
    assert a + [] == a;
  }
}
