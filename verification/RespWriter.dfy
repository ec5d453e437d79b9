/** The command writers of redis_protocol, and the loop back through its own parser. */
module RespWriter {
  import opened ByteStrings
  import opened RespNested
  import opened RespParser
  import opened RespResume
  import opened RespValue

  /** "$%u\r\n" */
  function LenHeader(n: nat): Bytes {
    [DOLLAR] + Dec(n) + CRLF
  }

  // ----- what a command is on the wire -----

  /** A command is an array of bulk strings. */
  function CommandValue(args: seq<Bytes>): (v: Value)
    ensures v.Array? && |v.items| == |args|
  {
    Array(Bulks(args))
  }

  function Bulks(args: seq<Bytes>): (vs: seq<Value>)
    ensures |vs| == |args| && forall i :: 0 <= i < |args| ==> vs[i] == Bulk(args[i])
  {
    seq(|args|, i requires 0 <= i < |args| => Bulk(args[i]))
  }

  function Command(args: seq<Bytes>): Bytes {
    Encode(CommandValue(args))
  }

  function Arg(data: Bytes): Bytes {
    LenHeader(|data|) + data + CRLF
  }

  lemma ArgIsBulk(data: Bytes)
    ensures Encode(Bulk(data)) == Arg(data)
  {
  }

  function ArrayHead(n: nat): Bytes {
    [STAR] + Dec(n) + CRLF
  }

  lemma Bulks1(a: Bytes)
    ensures EncodeAll(Bulks([a])) == Arg(a)
  {
    var vs := Bulks([a]);
    assert vs[1..] == [];
    ArgIsBulk(a);
  }

  lemma Bulks2(a: Bytes, b: Bytes)
    ensures EncodeAll(Bulks([a, b])) == Arg(a) + Arg(b)
  {
    var vs := Bulks([a, b]);
    assert vs[1..] == Bulks([b]);
    ArgIsBulk(a);
    Bulks1(b);
  }

  lemma Bulks3(a: Bytes, b: Bytes, c: Bytes)
    ensures EncodeAll(Bulks([a, b, c])) == Arg(a) + Arg(b) + Arg(c)
  {
    var vs := Bulks([a, b, c]);
    assert vs[1..] == Bulks([b, c]);
    ArgIsBulk(a);
    Bulks2(b, c);
  }

  lemma Bulks4(a: Bytes, b: Bytes, c: Bytes, d: Bytes)
    ensures EncodeAll(Bulks([a, b, c, d])) == Arg(a) + Arg(b) + Arg(c) + Arg(d)
  {
    var vs := Bulks([a, b, c, d]);
    assert vs[1..] == Bulks([b, c, d]);
    ArgIsBulk(a);
    Bulks3(b, c, d);
  }

  lemma Command2(a: Bytes, b: Bytes)
    ensures Command([a, b]) == ArrayHead(2) + Arg(a) + Arg(b)
  {
    Bulks2(a, b);
  }

  lemma Command3(a: Bytes, b: Bytes, c: Bytes)
    ensures Command([a, b, c]) == ArrayHead(3) + Arg(a) + Arg(b) + Arg(c)
  {
    Bulks3(a, b, c);
  }

  lemma Command4(a: Bytes, b: Bytes, c: Bytes, d: Bytes)
    ensures Command([a, b, c, d]) == ArrayHead(4) + Arg(a) + Arg(b) + Arg(c) + Arg(d)
  {
    Bulks4(a, b, c, d);
  }

  // ----- the commands -----

  const SET: Bytes := Ascii("SET")
  const SETRANGE: Bytes := Ascii("SETRANGE")
  const SETEX: Bytes := Ascii("SETEX")
  const GET: Bytes := Ascii("GET")
  const GETRANGE: Bytes := Ascii("GETRANGE")
  const WAIT: Bytes := Ascii("WAIT")
  const SELECT: Bytes := Ascii("SELECT")
  const AUTH: Bytes := Ascii("AUTH")
  const MINUS_ONE: Bytes := Ascii("-1")

  // the fixed beginnings printed by the writers
  const SET_HEAD: Bytes := Ascii("*3\r\n$3\r\nSET\r\n")
  const SETRANGE_HEAD: Bytes := Ascii("*4\r\n$8\r\nSETRANGE\r\n")
  const SETEX_HEAD: Bytes := Ascii("*4\r\n$5\r\nSETEX\r\n")
  const GET_HEAD: Bytes := Ascii("*2\r\n$3\r\nGET\r\n")
  const GETRANGE_HEAD: Bytes := Ascii("*4\r\n$8\r\nGETRANGE\r\n")
  const WAIT_HEAD: Bytes := Ascii("*3\r\n$4\r\nWAIT\r\n")
  const SELECT_HEAD: Bytes := Ascii("*2\r\n$6\r\nSELECT\r\n")
  const AUTH2_HEAD: Bytes := Ascii("*2\r\n$4\r\nAUTH\r\n")
  const AUTH3_HEAD: Bytes := Ascii("*3\r\n$4\r\nAUTH\r\n")
  const MINUS_ONE_ARG: Bytes := Ascii("$2\r\n-1\r\n")

  /** What the client sends; a NUL-terminated credential string holds no NUL. */
  datatype Request =
    | Set(key: Bytes, value: Bytes, expiry: int, offset: nat)
    | Get(key: Bytes, offset: nat)
    | Wait(slaves: nat, timeout: nat)
    | Select(db: int)
    | Auth(credentials: Bytes)

  /** C argument types and the assertions at the head of the writers. */
  predicate Sendable(r: Request) {
    && |Command(Args(r))| < TWO_31
    && match r
       case Set(key, value, expiry, offset) =>
         key != [] && value != [] && -TWO_31 <= expiry < TWO_31 && offset < TWO_32
       case Get(key, offset) => key != [] && offset < TWO_32
       case Wait(slaves, timeout) => slaves < TWO_32 && timeout < TWO_32
       case Select(db) => -TWO_31 <= db < TWO_31
       case Auth(credentials) => NUL !in credentials
  }

  /** strchr(s, ':') as a position, or |s|. */
  function ColonIn(s: Bytes): (i: nat)
    ensures i <= |s| && COLON !in s[..i] && (i < |s| ==> s[i] == COLON)
  {
    if s == [] || s[0] == COLON then 0 else
      var i := ColonIn(s[1..]);
      assert s[..i + 1] == [s[0]] + s[1..][..i];
      i + 1
  }

  /** The argument list each request stands for: SETRANGE and SETEX replace SET when an offset or an
      expiry is given, a credential is <password>, :<password> or <user>:<password>. */
  function Args(r: Request): (args: seq<Bytes>)
    ensures 2 <= |args| <= 4
  {
    match r
    case Set(key, value, expiry, offset) =>
      if expiry == 0 && offset == 0 then [SET, key, value]
      else if offset != 0 then [SETRANGE, key, Dec(offset), value]
      else [SETEX, key, Dec(U32(expiry)), value]
    case Get(key, offset) =>
      if offset == 0 then [GET, key] else [GETRANGE, key, Dec(offset), MINUS_ONE]
    case Wait(slaves, timeout) => [WAIT, Dec(slaves), Dec(timeout)]
    case Select(db) => [SELECT, DecInt(db)]
    case Auth(credentials) =>
      var i := ColonIn(credentials);
      if i == |credentials| then [AUTH, credentials]
      else if i == 0 then [AUTH, credentials[1..]]
      else [AUTH, credentials[..i], credentials[i + 1..]]
  }

  lemma ArgsOfSet(key: Bytes, value: Bytes, expiry: int, offset: nat)
    ensures Args(Set(key, value, expiry, offset))
         == if expiry == 0 && offset == 0 then [SET, key, value]
            else if offset != 0 then [SETRANGE, key, Dec(offset), value]
            else [SETEX, key, Dec(U32(expiry)), value]
  {
    hide Dec, U32, Ascii;
  }

  lemma ArgsOfOthers(key: Bytes, offset: nat, slaves: nat, timeout: nat, db: int)
    ensures Args(Get(key, offset)) == if offset == 0 then [GET, key] else [GETRANGE, key, Dec(offset), MINUS_ONE]
    ensures Args(Wait(slaves, timeout)) == [WAIT, Dec(slaves), Dec(timeout)]
    ensures Args(Select(db)) == [SELECT, DecInt(db)]
  {
    hide Dec, DecInt, Ascii;
  }

  /** get_number_length */
  function NumberLength(num: nat): nat {
    if num < 10 then 1
    else if num < 100 then 2
    else if num < 1000 then 3
    else if num < 10000 then 4
    else if num < 100000 then 5
    else if num < 1000000 then 6
    else if num < 10000000 then 7
    else if num < 100000000 then 8
    else if num < 1000000000 then 9
    else 10
  }

  /** The ladder of comparisons gives the decimal width of every 32-bit number. */
  lemma {:induction false} NumberLengthIsWidth(num: nat)
    requires num < TWO_32
    ensures NumberLength(num) == |Dec(num)|
    decreases num
  {
    if num >= 10 {
      NumberLengthIsWidth(num / 10);
    }
  }

  lemma SetLiteral()
    ensures SET_HEAD == ArrayHead(3) + Arg(SET)
  {
  }

  lemma SetRangeLiteral()
    ensures SETRANGE_HEAD == ArrayHead(4) + Arg(SETRANGE)
  {
  }

  lemma SetExLiteral()
    ensures SETEX_HEAD == ArrayHead(4) + Arg(SETEX)
  {
  }

  lemma GetLiteral()
    ensures GET_HEAD == ArrayHead(2) + Arg(GET)
  {
  }

  lemma GetRangeLiteral()
    ensures GETRANGE_HEAD == ArrayHead(4) + Arg(GETRANGE)
  {
  }

  lemma WaitLiteral()
    ensures WAIT_HEAD == ArrayHead(3) + Arg(WAIT)
  {
  }

  lemma SelectLiteral()
    ensures SELECT_HEAD == ArrayHead(2) + Arg(SELECT)
  {
  }

  lemma Auth2Literal()
    ensures AUTH2_HEAD == ArrayHead(2) + Arg(AUTH)
  {
  }

  lemma Auth3Literal()
    ensures AUTH3_HEAD == ArrayHead(3) + Arg(AUTH)
  {
  }

  lemma MinusOneLiteral()
    ensures MINUS_ONE_ARG == Arg(MINUS_ONE)
  {
  }

  lemma Regroup2(b: Bytes, h: Bytes, x: Bytes, y: Bytes)
    ensures b + (h + x) + y == b + (h + x + y)
  {
  }

  lemma Regroup3(b: Bytes, h: Bytes, x: Bytes, y: Bytes, z: Bytes)
    ensures b + (h + x) + y + z == b + (h + x + y + z)
  {
  }

  lemma Regroup4(b: Bytes, h: Bytes, x: Bytes, y: Bytes, z: Bytes, w: Bytes)
    ensures b + (h + x) + y + z + w == b + (h + x + y + z + w)
  {
  }

  lemma InRangeWait(slaves: nat, timeout: nat)
    requires Sendable(Wait(slaves, timeout))
    ensures slaves < TWO_32 && timeout < TWO_32
  {
  }

  lemma TwoArgs(base: Bytes, a: Bytes, b: Bytes)
    ensures base + LenHeader(|a|) + a + CRLF + LenHeader(|b|) + b + CRLF == base + Arg(a) + Arg(b)
  {
    hide LenHeader;
  }

  class RedisWriter {
    var writeBuf: Bytes

    constructor ()
      ensures writeBuf == []
    {
      writeBuf := [];
    }

    /** evbuffer_add and evbuffer_add_printf: append, return the number of bytes. */
    method Add(s: Bytes) returns (n: int)
      modifies this
      ensures writeBuf == old(writeBuf) + s && n == |s|
    {
      writeBuf := writeBuf + s;
      n := |s|;
    }

    /** A command of a name, a key and one more argument; head is the array header and the name. */
    method WriteKeyAndValue(head: Bytes, name: Bytes, key: Bytes, value: Bytes) returns (size: int)
      requires head == ArrayHead(3) + Arg(name)
      modifies this
      ensures writeBuf == old(writeBuf) + Command([name, key, value])
      ensures size == |Command([name, key, value])|
    {
      hide Command, LenHeader, ArrayHead;
      ghost var base := writeBuf + head;
      size := Add(head + LenHeader(|key|));
      var n := Add(key);
      size := size + |key|;
      n := Add(CRLF + LenHeader(|value|));
      size := size + n;
      assert writeBuf == base + Arg(key) + LenHeader(|value|);
      n := Add(value);
      n := Add(CRLF);
      size := size + |value| + 2;
      assert writeBuf == base + Arg(key) + Arg(value);
      Command3(name, key, value);
      Regroup3(old(writeBuf), ArrayHead(3), Arg(name), Arg(key), Arg(value));
    }

    /** A command of a name, a key, a number and a value. */
    method WriteKeyNumberValue(head: Bytes, name: Bytes, key: Bytes, text: Bytes, value: Bytes) returns (size: int)
      requires head == ArrayHead(4) + Arg(name)
      modifies this
      ensures writeBuf == old(writeBuf) + Command([name, key, text, value])
      ensures size == |Command([name, key, text, value])|
    {
      hide Command, LenHeader, ArrayHead;
      ghost var base := writeBuf + head;
      size := Add(head + LenHeader(|key|));
      var n := Add(key);
      size := size + |key|;
      n := Add(CRLF + LenHeader(|text|) + text + CRLF + LenHeader(|value|));
      size := size + n;
      assert writeBuf == base + Arg(key) + Arg(text) + LenHeader(|value|);
      n := Add(value);
      n := Add(CRLF);
      size := size + |value| + 2;
      assert writeBuf == base + Arg(key) + Arg(text) + Arg(value);
      Command4(name, key, text, value);
      Regroup4(old(writeBuf), ArrayHead(4), Arg(name), Arg(key), Arg(text), Arg(value));
    }

    /** write_command_set */
    method WriteSet(key: Bytes, value: Bytes, expiry: int, offset: nat) returns (size: int)
      requires Sendable(Set(key, value, expiry, offset))
      modifies this
      ensures writeBuf == old(writeBuf) + Command(Args(Set(key, value, expiry, offset)))
      ensures size == |Command(Args(Set(key, value, expiry, offset)))|
    {
      hide *;
      ArgsOfSet(key, value, expiry, offset);
      if expiry == 0 && offset == 0 {
        SetLiteral();
        size := WriteKeyAndValue(SET_HEAD, SET, key, value);
      } else if offset != 0 {
        SetRangeLiteral();
        size := WriteKeyNumberValue(SETRANGE_HEAD, SETRANGE, key, Dec(offset), value);
      } else {
        SetExLiteral();
        size := WriteKeyNumberValue(SETEX_HEAD, SETEX, key, Dec(U32(expiry)), value);
      }
    }

    method WriteGetPlain(key: Bytes) returns (size: int)
      modifies this
      ensures writeBuf == old(writeBuf) + Command([GET, key])
      ensures size == |Command([GET, key])|
    {
      hide Ascii, Command, LenHeader, ArrayHead;
      GetLiteral();
      var head := GET_HEAD;
      size := Add(head + LenHeader(|key|));
      var n := Add(key);
      n := Add(CRLF);
      size := size + |key| + 2;
      assert writeBuf == old(writeBuf) + head + Arg(key);
      Command2(GET, key);
      Regroup2(old(writeBuf), ArrayHead(2), Arg(GET), Arg(key));
    }

    method WriteGetRange(key: Bytes, text: Bytes) returns (size: int)
      modifies this
      ensures writeBuf == old(writeBuf) + Command([GETRANGE, key, text, MINUS_ONE])
      ensures size == |Command([GETRANGE, key, text, MINUS_ONE])|
    {
      hide Ascii, Command, LenHeader, ArrayHead;
      GetRangeLiteral();
      MinusOneLiteral();
      var head, last := GETRANGE_HEAD, MINUS_ONE_ARG;
      size := Add(head + LenHeader(|key|));
      var n := Add(key);
      size := size + |key|;
      n := Add(CRLF + LenHeader(|text|) + text + CRLF + last);
      size := size + n;
      assert writeBuf == old(writeBuf) + head + Arg(key) + Arg(text) + last;
      Command4(GETRANGE, key, text, MINUS_ONE);
      Regroup4(old(writeBuf), ArrayHead(4), Arg(GETRANGE), Arg(key), Arg(text), last);
    }

    /** write_command_get */
    method WriteGet(key: Bytes, offset: nat) returns (size: int)
      requires Sendable(Get(key, offset))
      modifies this
      ensures writeBuf == old(writeBuf) + Command(Args(Get(key, offset)))
      ensures size == |Command(Args(Get(key, offset)))|
    {
      hide *;
      ArgsOfOthers(key, offset, 0, 0, 0);
      if offset == 0 {
        size := WriteGetPlain(key);
      } else {
        size := WriteGetRange(key, Dec(offset));
      }
    }

    /** write_command_wait */
    method WriteWait(slaves: nat, timeout: nat) returns (size: int)
      requires Sendable(Wait(slaves, timeout))
      modifies this
      ensures writeBuf == old(writeBuf) + Command(Args(Wait(slaves, timeout)))
      ensures size == |Command(Args(Wait(slaves, timeout)))|
    {
      InRangeWait(slaves, timeout);
      hide *;
      ArgsOfOthers([], 0, slaves, timeout, 0);
      WaitLiteral();
      NumberLengthIsWidth(slaves);
      NumberLengthIsWidth(timeout);
      var head, a, b := WAIT_HEAD, Dec(slaves), Dec(timeout);
      size := Add(head + LenHeader(NumberLength(slaves)) + a + CRLF + LenHeader(NumberLength(timeout)) + b + CRLF);
      TwoArgs(head, a, b);
      Command3(WAIT, a, b);
    }

    /** select_db */
    method WriteSelect(db: int) returns (size: int)
      requires Sendable(Select(db))
      modifies this
      ensures writeBuf == old(writeBuf) + Command(Args(Select(db)))
      ensures size == |Command(Args(Select(db)))|
    {
      SelectLiteral();
      hide Ascii, Command, DecInt, LenHeader, ArrayHead;
      var text := DecInt(db);
      size := Add(SELECT_HEAD + LenHeader(|text|) + text + CRLF);
      Command2(SELECT, text);
    }

    method WriteAuthPair(user: Bytes, password: Bytes) returns (size: int)
      modifies this
      ensures writeBuf == old(writeBuf) + Command([AUTH, user, password])
      ensures size == |Command([AUTH, user, password])|
    {
      Auth3Literal();
      hide Ascii, Command, LenHeader, ArrayHead;
      var head := AUTH3_HEAD;
      size := Add(head + LenHeader(|user|) + user + CRLF + LenHeader(|password|) + password + CRLF);
      assert writeBuf == old(writeBuf) + head + Arg(user) + Arg(password);
      Command3(AUTH, user, password);
      Regroup3(old(writeBuf), ArrayHead(3), Arg(AUTH), Arg(user), Arg(password));
    }

    method WriteAuthPassword(password: Bytes) returns (size: int)
      modifies this
      ensures writeBuf == old(writeBuf) + Command([AUTH, password])
      ensures size == |Command([AUTH, password])|
    {
      Auth2Literal();
      hide Ascii, Command, LenHeader, ArrayHead;
      size := Add(AUTH2_HEAD + LenHeader(|password|) + password + CRLF);
      Command2(AUTH, password);
    }

    /** authenticate */
    method WriteAuth(credentials: Bytes) returns (size: int)
      requires Sendable(Auth(credentials))
      modifies this
      ensures writeBuf == old(writeBuf) + Command(Args(Auth(credentials)))
      ensures size == |Command(Args(Auth(credentials)))|
    {
      hide Ascii, Command;
      var user, password := None, credentials;
      if credentials != [] && credentials[0] == COLON {
        password := credentials[1..];
      } else {
        var i := ColonIn(credentials);
        if i < |credentials| {
          user, password := Some(credentials[..i]), credentials[i + 1..];
        }
      }
      if user.None? {
        size := WriteAuthPassword(password);
      } else {
        size := WriteAuthPair(user.value, password);
      }
    }

    method Write(r: Request) returns (size: int)
      requires Sendable(r)
      modifies this
      ensures writeBuf == old(writeBuf) + Command(Args(r))
      ensures size == |Command(Args(r))|
    {
      hide Command, Args;
      match r
      case Set(key, value, expiry, offset) => size := WriteSet(key, value, expiry, offset);
      case Get(key, offset) => size := WriteGet(key, offset);
      case Wait(slaves, timeout) => size := WriteWait(slaves, timeout);
      case Select(db) => size := WriteSelect(db);
      case Auth(credentials) => size := WriteAuth(credentials);
    }
  }

  // ----- the loop back -----

  function Commands(rs: seq<Request>): (vs: seq<Value>)
    ensures |vs| == |rs| && forall i :: 0 <= i < |rs| ==> vs[i] == CommandValue(Args(rs[i]))
  {
    seq(|rs|, i requires 0 <= i < |rs| => CommandValue(Args(rs[i])))
  }

  function Leaves(args: seq<Bytes>): (ts: seq<Tree>)
    ensures |ts| == |args| && forall i :: 0 <= i < |args| ==> ts[i] == Leaf(args[i])
  {
    seq(|args|, i requires 0 <= i < |args| => Leaf(args[i]))
  }

  lemma CommandValid(args: seq<Bytes>)
    ensures Valid(CommandValue(args))
  {
    assert forall i :: 0 <= i < |args| ==> Valid(Bulks(args)[i]);
  }

  lemma {:induction false} TreesOfBulks(args: seq<Bytes>)
    ensures TreesOf(Bulks(args)) == Leaves(args)
    decreases |args|
  {
    if args != [] {
      assert Bulks(args)[1..] == Bulks(args[1..]);
      TreesOfBulks(args[1..]);
      assert Leaves(args) == [Leaf(args[0])] + Leaves(args[1..]);
    }
  }

  /** Any sequence of requests, written one after the other and fed to the repository's own parser with
      keep-value on, in chunks of any size: each comes back as exactly its argument list, with the length
      its writer reported. */
  lemma LoopBack(p: Parser, rs: seq<Request>, chunks: seq<Bytes>)
    requires p.mode.Initial? && p.frames == [] && p.keep
    requires forall i :: 0 <= i < |rs| ==> Sendable(rs[i])
    requires Concat(chunks) == EncodeAll(Commands(rs))
    ensures var s := PollChunks(p, [], chunks);
            && s.buf == [] && |s.events| == |rs|
            && forall i :: 0 <= i < |rs| ==>
                 && s.events[i].Replied?
                 && s.events[i].reply.tree == Some(Branch(Leaves(Args(rs[i]))))
                 && s.events[i].reply.totalLen == |Command(Args(rs[i]))|
                 && !s.events[i].reply.error
  {
    hide PollChunks, Args, Encode, Receivable;
    var vs := Commands(rs);
    forall i | 0 <= i < |rs| ensures Valid(vs[i]) && |Encode(vs[i])| < TWO_32 && Receivable(vs[i]) {
      assert Sendable(rs[i]);
      CommandValid(Args(rs[i]));
      ShortReceivable(vs[i]);
    }
    ChunkedStreamInvertsEncodeAll(p, vs, chunks);
    var s := PollChunks(p, [], chunks);
    forall i | 0 <= i < |rs|
      ensures && s.events[i].Replied?
              && s.events[i].reply.tree == Some(Branch(Leaves(Args(rs[i]))))
              && s.events[i].reply.totalLen == |Command(Args(rs[i]))|
              && !s.events[i].reply.error
    {
      assert ReplyMatches(s.events[i].reply, vs[i], true);
      TreesOfBulks(Args(rs[i]));
      NoErrorInBulks(Args(rs[i]));
    }
  }

  lemma {:induction false} NoErrorInBulks(args: seq<Bytes>)
    ensures !AnyError(Bulks(args))
    decreases |args|
  {
    if args != [] {
      assert Bulks(args)[1..] == Bulks(args[1..]);
      NoErrorInBulks(args[1..]);
    }
  }

  /** The client's write buffer after a run of requests, and the sizes it recorded for them. */
  method WriteAll(w: RedisWriter, rs: seq<Request>) returns (sizes: seq<int>)
    requires w.writeBuf == []
    requires forall i :: 0 <= i < |rs| ==> Sendable(rs[i])
    modifies w
    ensures w.writeBuf == EncodeAll(Commands(rs))
    ensures |sizes| == |rs| && forall i :: 0 <= i < |rs| ==> sizes[i] == |Command(Args(rs[i]))|
  {
    hide Args, Encode;
    sizes := [];
    for i := 0 to |rs|
      invariant w.writeBuf == EncodeAll(Commands(rs[..i]))
      invariant |sizes| == i && forall j :: 0 <= j < i ==> sizes[j] == |Command(Args(rs[j]))|
    {
      var n := w.Write(rs[i]);
      sizes := sizes + [n];
      EncodeAllSnoc(Commands(rs[..i]), CommandValue(Args(rs[i])));
      assert Commands(rs[..i + 1]) == Commands(rs[..i]) + [CommandValue(Args(rs[i]))];
    }
    assert rs[..|rs|] == rs;
  }

  lemma {:induction false} EncodeAllSnoc(vs: seq<Value>, v: Value)
    ensures EncodeAll(vs + [v]) == EncodeAll(vs) + Encode(v)
    decreases |vs|
  {
    if vs == [] {
      assert vs + [v] == [v] && [v][1..] == [];
    } else {
      assert (vs + [v])[1..] == vs[1..] + [v];
      EncodeAllSnoc(vs[1..], v);
    }
  }
}
