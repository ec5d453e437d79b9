/** What the commands sent mean to a Redis server, after the pages for SET, SETEX, SETRANGE, GET, GETRANGE, WAIT, SELECT
    and AUTH of the Redis command reference, and that every request is understood as it was meant. */
module RespCommands {
  import opened ByteStrings
  import opened RespParser
  import opened RespResume
  import opened RespValue
  import opened RespWriter

  datatype Op =
    | Store(key: Bytes, value: Bytes)
    | StoreFor(key: Bytes, seconds: int, value: Bytes)
    | Patch(key: Bytes, offset: int, value: Bytes)
    | Fetch(key: Bytes)
    | FetchRange(key: Bytes, first: int, last: int)
    | AwaitReplicas(count: int, milliseconds: int)
    | UseDatabase(index: int)
    | Login(user: Option<Bytes>, password: Bytes)

  /** The server's reading of an argument list. */
  function Meaning(args: seq<Bytes>): Option<Op> {
    if |args| == 3 && args[0] == Ascii("SET") then Some(Store(args[1], args[2]))
    else if |args| == 4 && args[0] == Ascii("SETEX") then Some(StoreFor(args[1], Strtol(args[2]), args[3]))
    else if |args| == 4 && args[0] == Ascii("SETRANGE") then Some(Patch(args[1], Strtol(args[2]), args[3]))
    else if |args| == 2 && args[0] == Ascii("GET") then Some(Fetch(args[1]))
    else if |args| == 4 && args[0] == Ascii("GETRANGE") then Some(FetchRange(args[1], Strtol(args[2]), Strtol(args[3])))
    else if |args| == 3 && args[0] == Ascii("WAIT") then Some(AwaitReplicas(Strtol(args[1]), Strtol(args[2])))
    else if |args| == 2 && args[0] == Ascii("SELECT") then Some(UseDatabase(Strtol(args[1])))
    else if |args| == 2 && args[0] == Ascii("AUTH") then Some(Login(None, args[1]))
    else if |args| == 3 && args[0] == Ascii("AUTH") then Some(Login(Some(args[1]), args[2]))
    else None
  }

  lemma NamesDiffer()
    ensures SET[0] == 'S' as int && |SET| == 3 && |SETEX| == 5 && |SETRANGE| == 8
    ensures GET[0] == 'G' as int && |GET| == 3
    ensures |GETRANGE| == 8 && GETRANGE[0] == 'G' as int && SETRANGE[0] == 'S' as int
    ensures WAIT[0] == 'W' as int && |WAIT| == 4 && |SELECT| == 6 && AUTH[0] == 'A' as int && |AUTH| == 4
  {
  }

  lemma NegativeStrtol(s: Bytes)
    requires s != [] && s[0] == MINUS
    ensures Strtol(s) == Clamp(-(DigitsValue(s[1..], 0) as int))
  {
    hide DigitsValue, Clamp;
    assert SkipSpace(s) == s;
  }

  lemma StrtolOfInt(n: int)
    requires -TWO_31 <= n < TWO_31
    ensures Strtol(DecInt(n)) == n
  {
    hide Strtol, Dec, DigitsValue;
    if n < 0 {
      var s := DecInt(n);
      assert s[1..] == Dec(-n);
      NegativeStrtol(s);
      DecValue(-n);
    } else {
      StrtolDec(n);
    }
  }

  lemma StrtolOfMinusOne()
    ensures Strtol(MINUS_ONE) == -1
  {
    StrtolOfInt(-1);
    assert Dec(1) == [49];
    assert DecInt(-1) == MINUS_ONE;
  }

  /** SET with an offset writes there, without one but with an expiry it stores for that many seconds. */
  lemma SetMeans(key: Bytes, value: Bytes, expiry: int, offset: nat)
    requires -TWO_31 <= expiry < TWO_31 && offset < TWO_32
    ensures Meaning(Args(Set(key, value, expiry, offset)))
         == Some(if offset != 0 then Patch(key, offset, value)
                 else if expiry != 0 then StoreFor(key, U32(expiry), value)
                 else Store(key, value))
  {
    NamesDiffer();
    hide Ascii, Strtol, U32, Dec;
    StrtolDec(offset);
    StrtolDec(U32(expiry));
  }

  /** GET with an offset fetches from there to the end. */
  lemma GetMeans(key: Bytes, offset: nat)
    requires offset < TWO_32
    ensures Meaning(Args(Get(key, offset))) == Some(if offset == 0 then Fetch(key) else FetchRange(key, offset, -1))
  {
    NamesDiffer();
    StrtolOfMinusOne();
    hide Ascii, Strtol, Dec;
    StrtolDec(offset);
  }

  lemma WaitMeans(slaves: nat, timeout: nat)
    requires slaves < TWO_32 && timeout < TWO_32
    ensures Meaning(Args(Wait(slaves, timeout))) == Some(AwaitReplicas(slaves, timeout))
  {
    NamesDiffer();
    hide Ascii, Strtol, Dec;
    StrtolDec(slaves);
    StrtolDec(timeout);
  }

  lemma SelectMeans(db: int)
    requires -TWO_31 <= db < TWO_31
    ensures Meaning(Args(Select(db))) == Some(UseDatabase(db))
  {
    NamesDiffer();
    hide Ascii, Strtol, DecInt;
    StrtolOfInt(db);
  }

  lemma {:induction false} ColonBehind(user: Bytes, password: Bytes)
    requires COLON !in user
    ensures ColonIn(user + [COLON] + password) == |user|
    decreases |user|
  {
    var s := user + [COLON] + password;
    if user != [] {
      assert s[1..] == user[1..] + [COLON] + password && s[0] == user[0];
      ColonBehind(user[1..], password);
    }
  }

  lemma {:induction false} NoColon(s: Bytes)
    requires COLON !in s
    ensures ColonIn(s) == |s|
    decreases |s|
  {
    if s != [] {
      NoColon(s[1..]);
    }
  }

  lemma PasswordMeans(password: Bytes)
    ensures COLON !in password ==> Meaning(Args(Auth(password))) == Some(Login(None, password))
    ensures Meaning(Args(Auth([COLON] + password))) == Some(Login(None, password))
  {
    NamesDiffer();
    if COLON !in password {
      NoColon(password);
    }
    var c := [COLON] + password;
    assert c[1..] == password && c[0] == COLON && ColonIn(c) == 0;
    hide Ascii, ColonIn;
  }

  lemma UserMeans(user: Bytes, password: Bytes)
    requires COLON !in user && user != []
    ensures Meaning(Args(Auth(user + [COLON] + password))) == Some(Login(Some(user), password))
  {
    NamesDiffer();
    hide Ascii, ColonIn;
    ColonBehind(user, password);
    var s := user + [COLON] + password;
    assert s[..|user|] == user && s[|user| + 1..] == password;
    assert Args(Auth(s)) == [AUTH, user, password];
  }

  /** Credentials: a password, a password behind a colon, or a user and a password with a colon between them. */
  lemma AuthMeans(user: Bytes, password: Bytes)
    requires COLON !in user
    ensures COLON !in password ==> Meaning(Args(Auth(password))) == Some(Login(None, password))
    ensures Meaning(Args(Auth([COLON] + password))) == Some(Login(None, password))
    ensures user != [] ==> Meaning(Args(Auth(user + [COLON] + password))) == Some(Login(Some(user), password))
  {
    hide Meaning, Args;
    PasswordMeans(password);
    if user != [] {
      UserMeans(user, password);
    }
  }

  /** What a request asks for. */
  function Asked(r: Request): Op {
    match r
    case Set(key, value, expiry, offset) =>
      if offset != 0 then Patch(key, offset, value)
      else if expiry != 0 then StoreFor(key, U32(expiry), value)
      else Store(key, value)
    case Get(key, offset) => if offset == 0 then Fetch(key) else FetchRange(key, offset, -1)
    case Wait(slaves, timeout) => AwaitReplicas(slaves, timeout)
    case Select(db) => UseDatabase(db)
    case Auth(credentials) =>
      var i := ColonIn(credentials);
      if i == |credentials| then Login(None, credentials)
      else Login(if i == 0 then None else Some(credentials[..i]), credentials[i + 1..])
  }

  lemma RequestMeans(r: Request)
    requires Sendable(r)
    ensures Meaning(Args(r)) == Some(Asked(r))
  {
    hide Meaning, Args, Command;
    match r
    case Set(key, value, expiry, offset) => SetMeans(key, value, expiry, offset);
    case Get(key, offset) => GetMeans(key, offset);
    case Wait(slaves, timeout) => WaitMeans(slaves, timeout);
    case Select(db) => SelectMeans(db);
    case Auth(credentials) =>
      var i := ColonIn(credentials);
      if i == |credentials| {
        assert credentials[..i] == credentials;
        AuthMeans([], credentials);
      } else {
        assert credentials == credentials[..i] + [COLON] + credentials[i + 1..];
        AuthMeans(credentials[..i], credentials[i + 1..]);
        if i == 0 {
          assert credentials == [COLON] + credentials[1..];
        }
      }
  }

  /** The texts of a flat tree. */
  function Texts(ts: seq<Tree>): Option<seq<Bytes>> {
    if forall i :: 0 <= i < |ts| ==> ts[i].Leaf? then
      Some(seq(|ts|, i requires 0 <= i < |ts| && ts[i].Leaf? => ts[i].text))
    else None
  }

  function TreeMeaning(t: Option<Tree>): Option<Op> {
    if t.Some? && t.value.Branch? && Texts(t.value.items).Some? then Meaning(Texts(t.value.items).value) else None
  }

  lemma LeavesMean(args: seq<Bytes>)
    ensures TreeMeaning(Some(Branch(Leaves(args)))) == Meaning(args)
  {
    hide Meaning;
    var ts := Leaves(args);
    assert Texts(ts).Some? && Texts(ts).value == args;
  }

  /** Any sequence of requests, written one after the other and received in chunks of any size, is understood as it was
      meant, request by request. */
  lemma RequestsAreUnderstood(p: Parser, rs: seq<Request>, chunks: seq<Bytes>)
    requires p.mode.Initial? && p.frames == [] && p.keep
    requires forall i :: 0 <= i < |rs| ==> Sendable(rs[i])
    requires Concat(chunks) == EncodeAll(Commands(rs))
    ensures var s := PollChunks(p, [], chunks);
            && s.buf == [] && |s.events| == |rs|
            && forall i :: 0 <= i < |rs| ==>
                 s.events[i].Replied? && TreeMeaning(s.events[i].reply.tree) == Some(Asked(rs[i]))
  {
    hide PollChunks, Args, Meaning, TreeMeaning, Asked, Sendable, Leaves;
    LoopBack(p, rs, chunks);
    forall i | 0 <= i < |rs|
      ensures TreeMeaning(Some(Branch(Leaves(Args(rs[i]))))) == Some(Asked(rs[i]))
    {
      RequestMeans(rs[i]);
      LeavesMean(Args(rs[i]));
    }
  }
}
