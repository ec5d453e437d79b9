/** parse_response inverts the wire encoding of arbitrarily nested values. */
module RespNested {
  import opened ByteStrings
  import opened RespParser
  import opened RespResume
  import opened RespValue

  lemma ParseLine(p: Parser, line: Bytes, rest: Bytes)
    requires p.mode.ReadLine? && NoCrlf(line)
    ensures var t := OnLine(p, line);
            && (t.More? ==> Ready(t.p, rest))
            && Parse(p, line + CRLF + rest) == Resume(t, rest)
  {
    FindCrlfLine(line, rest);
    var buf := line + CRLF + rest;
    assert Step(p, buf) == Outcome(OnLine(p, line), rest);
    StepProgress(p, buf);
  }

  lemma ParseBulkBody(p: Parser, data: Bytes, rest: Bytes)
    requires p.mode.ReadBulk? && p.bulkLen == |data|
    ensures var t := OnBulkEnd(OnBulkReceived(p), data);
            && (t.More? ==> Ready(t.p, rest))
            && Parse(p, data + CRLF + rest) == Resume(t, rest)
  {
    var buf := data + CRLF + rest;
    var q := OnBulkReceived(p);
    assert Step(p, buf) == Outcome(More(q), buf);
    assert buf[..|data|] == data && buf[|data| + 2..] == rest;
    assert Step(q, buf) == Outcome(OnBulkEnd(q, data), rest);
    StepProgress(q, buf);
    assert Parse(p, buf) == Parse(q, buf);
  }

  lemma ParseNoBody(p: Parser, rest: Bytes)
    requires p.mode.EndBulk? && p.bulkLen < 0
    ensures var t := OnBulkEnd(p, []);
            && (t.More? ==> Ready(t.p, rest))
            && Parse(p, rest) == Resume(t, rest)
  {
    assert Step(p, rest) == Outcome(OnBulkEnd(p, []), rest);
    StepProgress(p, rest);
  }

  /** Elements still outstanding apart from the one about to arrive. */
  function Others(p: Parser): nat {
    if p.total > 0 then p.total - 1 else 0
  }

  /** The parser stands at the start of an element: inside an array exactly when one is open. */
  predicate Awaiting(p: Parser) {
    p.mode.ReadLine? && p.total < TWO_32
    && (p.keep ==> (p.frames == [] <==> p.total == 0))
    && (p.frames != [] ==> p.frames[0].left > 0)
  }

  /** What the arrival of v does to the kept value. */
  function KeptAfter(p: Parser, v: Value): (seq<Frame>, Option<Tree>, Bytes) {
    if !p.keep then (p.frames, p.reply.tree, p.reply.value)
    else if p.frames != [] then
      var (frames, tree) := AddElement(p.frames, p.reply.tree, TreeOf(v));
      (frames, tree, p.reply.value)
    else
      match v
      case Bulk(data) => ([], p.reply.tree, data)
      case NullBulk => ([], p.reply.tree, [])
      case Simple(_, _) => ([], p.reply.tree, p.reply.value)
      case _ => ([], Some(TreeOf(v)), p.reply.value)
  }

  /** q is p after one complete value v. */
  predicate Received(p: Parser, v: Value, q: Parser) {
    && q.keep == p.keep
    && q.reply.status == Some(CString(LastHeader(v)))
    && q.total == Others(p)
    && q.respLen == p.respLen + |Encode(v)|
    && q.reply.hits == p.reply.hits + Hits(v)
    && q.reply.error == (p.reply.error || HasError(v))
    && (q.frames, q.reply.tree, q.reply.value) == KeptAfter(p, v)
  }

  /** The parser once the header line of an element has been counted. */
  function Counted(p: Parser, line: Bytes): Parser {
    p.(respLen := p.respLen + |line| + 2)
  }

  lemma SimpleReceived(p: Parser, v: Value)
    requires Awaiting(p) && Valid(v) && v.Simple?
    ensures Received(p, v, AfterSimple(Counted(p, Header(v)), Header(v)))
  {
  }

  lemma ReceiveSimple(p: Parser, v: Value, rest: Bytes) returns (q: Parser)
    requires Awaiting(p) && Valid(v) && v.Simple?
    ensures Received(p, v, q) && Parse(p, Encode(v) + rest) == Resume(Finish(q), rest)
  {
    var line := Header(v);
    assert Encode(v) + rest == line + CRLF + rest;
    ParseLine(p, line, rest);
    q := AfterSimple(Counted(p, line), line);
    SimpleReceived(p, v);
  }

  lemma BulkHeader(data: Bytes)
    requires |data| < TWO_63
    ensures NoCrlf(Header(Bulk(data))) && HeaderNumber(Header(Bulk(data))) == |data|
  {
    var line := Header(Bulk(data));
    DecNoCrlf(|data|, DOLLAR);
    assert line[1..] == Dec(|data|);
    StrtolDec(|data|);
  }

  lemma BulkReceived(p: Parser, line: Bytes, data: Bytes)
    requires Awaiting(p) && line == Header(Bulk(data)) && HeaderNumber(line) == |data|
    ensures var h := AfterBulkHeader(Counted(p, line), line);
            h.bulkLen == |data| && Received(p, Bulk(data), AfterBulk(OnBulkReceived(h), data))
  {
    assert |Encode(Bulk(data))| == |line| + 2 + |data| + 2;
  }

  lemma ReceiveBulk(p: Parser, v: Value, rest: Bytes) returns (q: Parser)
    requires Awaiting(p) && v.Bulk? && |v.data| < TWO_63
    ensures Received(p, v, q) && Parse(p, Encode(v) + rest) == Resume(Finish(q), rest)
  {
    var line := Header(v);
    var body := v.data + CRLF + rest;
    assert Encode(v) + rest == line + CRLF + body;
    BulkHeader(v.data);
    ParseLine(p, line, body);
    BulkReceived(p, line, v.data);
    var h := AfterBulkHeader(Counted(p, line), line);
    ParseBulkBody(h, v.data, rest);
    q := AfterBulk(OnBulkReceived(h), v.data);
  }

  lemma NullHeader(head: byte)
    requires head != CR && head != LF
    ensures NoCrlf([head, MINUS, 49]) && HeaderNumber([head, MINUS, 49]) == -1
  {
    hide Strtol;
    var line: Bytes := [head, MINUS, 49];
    MinusOne(line[1..]);
  }

  lemma MinusOne(s: Bytes)
    requires |s| == 2 && s[0] == MINUS && s[1] == 49
    ensures Strtol(s) == -1
  {
    hide DigitsValue;
    var t := s[1..];
    assert SkipSpace(s) == s;
    OneDigit(t);
  }

  lemma OneDigit(t: Bytes)
    requires |t| == 1 && t[0] == 49
    ensures DigitsValue(t, 0) == 1
  {
    var e := t[1..];
    assert DigitsValue(t, 0) == DigitsValue(e, 1);
  }

  lemma NullBulkReceived(p: Parser, v: Value, line: Bytes)
    requires Awaiting(p) && line != [] && HeaderNumber(line) == -1
    requires v.NullBulk? && |Encode(v)| == |line| + 2 && Header(v) == line
    ensures Received(p, v, AfterBulk(AfterBulkHeader(Counted(p, line), line), []))
  {
    hide HeaderNumber, Header, CString, AddElement, Encode;
  }

  lemma ReceiveNullBulk(p: Parser, v: Value, line: Bytes, rest: Bytes) returns (q: Parser)
    requires Awaiting(p) && v.NullBulk? && Encode(v) == line + CRLF && Header(v) == line
    requires NoCrlf(line) && line != [] && line[0] == DOLLAR && HeaderNumber(line) == -1
    ensures Received(p, v, q) && Parse(p, Encode(v) + rest) == Resume(Finish(q), rest)
  {
    ParseLine(p, line, rest);
    var h := AfterBulkHeader(Counted(p, line), line);
    q := AfterBulk(h, []);
    NullBulkReceived(p, v, line);
    ParseNoBody(h, rest);
  }

  lemma ArrayHeader(items: seq<Value>)
    requires |items| < TWO_31
    ensures NoCrlf(Header(Array(items))) && ArrayCount(Header(Array(items))) == |items|
  {
    var line := Header(Array(items));
    DecNoCrlf(|items|, STAR);
    assert line[1..] == Dec(|items|);
    StrtolDec(|items|);
  }

  lemma ParseArrayLine(p: Parser, line: Bytes, count: nat, rest: Bytes)
    requires p.mode.ReadLine? && NoCrlf(line) && line != [] && line[0] == STAR && ArrayCount(line) == count
    ensures Parse(p, line + CRLF + rest) == Resume(Finish(AfterArray(Counted(p, line), line, count)), rest)
  {
    ParseLine(p, line, rest);
  }

  lemma EmptyArrayReceived(p: Parser, v: Value, line: Bytes)
    requires Awaiting(p)
    requires TreeOf(v) == Branch([]) && Hits(v) == 0 && !HasError(v) && |Encode(v)| == |line| + 2
    requires !v.Bulk? && !v.NullBulk? && !v.Simple? && LastHeader(v) == line
    ensures Received(p, v, AfterArray(Counted(p, line), line, 0))
  {
    hide Settle, AddElement, OpenArray, Encode, TreeOf, Hits, HasError, CString, LastHeader;
    if p.keep {
      EmptyArrayKept(p.frames, p.reply.tree);
    }
  }

  /** An empty array is finished as soon as it is opened. */
  lemma EmptyArrayKept(frames: seq<Frame>, tree: Option<Tree>)
    ensures OpenArray(frames, tree, 0)
         == if frames == [] then ([], Some(Branch([]))) else AddElement(frames, tree, Branch([]))
  {
    if frames != [] {
      var parent := frames[0].(left := frames[0].left - 1);
      var grown := [Frame(0, []), parent] + frames[1..];
      assert grown[1] == parent && grown[2..] == frames[1..];
    }
  }

  lemma ReceiveEmptyArray(p: Parser, v: Value, line: Bytes, rest: Bytes) returns (q: Parser)
    requires Awaiting(p) && Encode(v) == line + CRLF && NoCrlf(line) && line != [] && line[0] == STAR
    requires ArrayCount(line) == 0
    requires TreeOf(v) == Branch([]) && Hits(v) == 0 && !HasError(v)
    requires !v.Bulk? && !v.NullBulk? && !v.Simple? && LastHeader(v) == line
    ensures Received(p, v, q) && Parse(p, Encode(v) + rest) == Resume(Finish(q), rest)
  {
    ParseArrayLine(p, line, 0, rest);
    EmptyArrayReceived(p, v, line);
    q := AfterArray(Counted(p, line), line, 0);
  }

  /** q is p after all the values vs, which are the rest of the array that p has open. */
  predicate ReceivedAll(p: Parser, vs: seq<Value>, q: Parser)
    requires p.total >= |vs| && (p.keep ==> p.frames != [])
  {
    && q.keep == p.keep
    && q.total == p.total - |vs|
    && q.respLen == p.respLen + |EncodeAll(vs)|
    && q.reply.hits == p.reply.hits + HitsAll(vs)
    && q.reply.error == (p.reply.error || AnyError(vs))
    && q.reply.value == p.reply.value
    && (vs != [] ==> q.reply.status == Some(CString(LastHeader(vs[|vs| - 1]))))
    && (q.frames, q.reply.tree)
    == if !p.keep then (p.frames, p.reply.tree)
       else Settle([Frame(0, p.frames[0].items + TreesOf(vs))] + p.frames[1..], p.reply.tree)
  }

  /** p awaits the last |vs| elements of its innermost open array. */
  predicate AwaitingAll(p: Parser, vs: seq<Value>) {
    && Awaiting(p) && vs != [] && p.total >= |vs|
    && (p.keep ==> p.frames != [] && p.frames[0].left == |vs|)
  }

  lemma LastReceived(p: Parser, vs: seq<Value>, q: Parser)
    requires AwaitingAll(p, vs) && |vs| == 1 && Received(p, vs[0], q)
    ensures ReceivedAll(p, vs, q)
  {
    assert vs[1..] == [];
    assert TreesOf(vs) == [TreeOf(vs[0])];
  }

  lemma FirstReceived(p: Parser, vs: seq<Value>, q: Parser) returns (r: Parser)
    requires AwaitingAll(p, vs) && |vs| > 1 && Received(p, vs[0], q)
    ensures Finish(q) == More(r) && AwaitingAll(r, vs[1..]) && r.total == p.total - 1
  {
    hide Encode, TreeOf, Hits, HasError;
    r := q.(mode := ReadLine);
  }

  lemma TreesHead(vs: seq<Value>)
    requires vs != []
    ensures TreesOf(vs) == [TreeOf(vs[0])] + TreesOf(vs[1..])
    ensures EncodeAll(vs) == Encode(vs[0]) + EncodeAll(vs[1..])
    ensures HitsAll(vs) == Hits(vs[0]) + HitsAll(vs[1..]) && (AnyError(vs) <==> HasError(vs[0]) || AnyError(vs[1..]))
    ensures AllValid(vs) ==> Valid(vs[0]) && AllValid(vs[1..])
  {
    hide Encode, TreeOf, Hits, HasError, Valid;
  }

  lemma FitsHead(vs: seq<Value>)
    requires vs != []
    ensures AllFit(vs) ==> Fits(vs[0]) && AllFit(vs[1..])
    ensures PeakAll(vs) >= |vs| - 1 + Peak(vs[0]) && PeakAll(vs) >= PeakAll(vs[1..])
  {
    hide Fits, Peak;
  }

  lemma RestReceived(p: Parser, vs: seq<Value>, first: Parser, r: Parser, q: Parser)
    requires AwaitingAll(p, vs) && |vs| > 1 && Received(p, vs[0], first)
    requires Finish(first) == More(r) && AwaitingAll(r, vs[1..]) && ReceivedAll(r, vs[1..], q)
    ensures ReceivedAll(p, vs, q)
  {
    hide Settle, Encode, EncodeAll, TreesOf, TreeOf, Hits, HitsAll, HasError, AnyError, LastHeader, CString;
    TreesHead(vs);
    assert vs[|vs| - 1] == vs[1..][|vs| - 2];
    if p.keep {
      FirstKept(p, vs, first);
      assert r.frames == first.frames && r.reply.tree == p.reply.tree;
      assert r.frames[1..] == p.frames[1..];
      assert r.frames[0].items + TreesOf(vs[1..]) == p.frames[0].items + TreesOf(vs);
    }
  }

  /** Not the last element: its array stays open. */
  lemma FirstKept(p: Parser, vs: seq<Value>, q: Parser)
    requires AwaitingAll(p, vs) && |vs| > 1 && Received(p, vs[0], q) && p.keep
    ensures q.frames == [Frame(|vs| - 1, p.frames[0].items + [TreeOf(vs[0])])] + p.frames[1..]
    ensures q.reply.tree == p.reply.tree
  {
    hide Encode, TreeOf, Hits, HasError;
  }

  lemma AwaitingFirst(p: Parser, vs: seq<Value>)
    requires AwaitingAll(p, vs)
    ensures Awaiting(p) && Others(p) == p.total - 1 && 1 <= |vs| <= p.total < TWO_32
  {
  }

  lemma ResumeMore(r: Parser, buf: Bytes)
    requires Ready(r, buf)
    ensures Resume(More(r), buf) == Parse(r, buf)
  {
    hide Parse;
  }

  lemma LineReady(r: Parser, vs: seq<Value>, buf: Bytes)
    requires AwaitingAll(r, vs)
    ensures Ready(r, buf)
  {
  }

  lemma {:induction false} ReceiveAll(p: Parser, vs: seq<Value>, rest: Bytes) returns (q: Parser)
    requires AwaitingAll(p, vs) && AllValid(vs)
    requires AllFit(vs) && p.total - |vs| + PeakAll(vs) < TWO_32
    ensures ReceivedAll(p, vs, q) && Parse(p, EncodeAll(vs) + rest) == Resume(Finish(q), rest)
    decreases vs, 0
  {
    hide Parse, Finish, Resume, Received, ReceivedAll, AwaitingAll, Awaiting, Others, Ready;
    hide Encode, EncodeAll, AllValid, AllFit, Peak, PeakAll;
    AwaitingFirst(p, vs);
    var tail := EncodeAll(vs[1..]) + rest;
    TreesHead(vs);
    FitsHead(vs);
    assert EncodeAll(vs) + rest == Encode(vs[0]) + tail;
    var first := ReceiveValue(p, vs[0], tail);
    if |vs| == 1 {
      NothingEncoded(vs[1..]);
      assert tail == rest;
      q := first;
      LastReceived(p, vs, q);
    } else {
      var r := FirstReceived(p, vs, first);
      q := ReceiveAll(r, vs[1..], rest);
      LineReady(r, vs[1..], tail);
      ResumeMore(r, tail);
      RestReceived(p, vs, first, r, q);
    }
  }

  lemma NothingEncoded(vs: seq<Value>)
    requires |vs| == 0
    ensures EncodeAll(vs) == []
  {
  }

  /** r is p after the header line of an array of the given elements. */
  predicate Opened(p: Parser, items: seq<Value>, line: Bytes, r: Parser) {
    && AwaitingAll(r, items) && r.total == Others(p) + |items|
    && r.keep == p.keep && r.respLen == p.respLen + |line| + 2
    && r.reply.hits == p.reply.hits && r.reply.error == p.reply.error
    && r.reply.tree == p.reply.tree && r.reply.value == p.reply.value
    && (!p.keep ==> r.frames == p.frames)
    && (p.keep ==> r.frames == [Frame(|items|, [])] +
                     if p.frames == [] then [] else [p.frames[0].(left := p.frames[0].left - 1)] + p.frames[1..])
  }

  lemma ArrayOpened(p: Parser, items: seq<Value>, line: Bytes) returns (r: Parser)
    requires Awaiting(p) && items != [] && Others(p) + |items| < TWO_32
    ensures Finish(AfterArray(Counted(p, line), line, |items|)) == More(r)
    ensures Opened(p, items, line, r)
  {
    r := AfterArray(Counted(p, line), line, |items|);
    if p.keep && p.frames != [] {
      assert r.frames == [Frame(|items|, []), p.frames[0].(left := p.frames[0].left - 1)] + p.frames[1..];
    }
  }

  lemma ArrayClosed(p: Parser, v: Value, line: Bytes, r: Parser, q: Parser)
    requires Awaiting(p) && v.Array? && v.items != [] && Encode(v) == line + CRLF + EncodeAll(v.items)
    requires Opened(p, v.items, line, r) && ReceivedAll(r, v.items, q)
    ensures Received(p, v, q)
  {
    hide EncodeAll, CString, Settle, AddElement;
    if p.keep {
      var ts := TreesOf(v.items);
      assert r.frames[0].items + ts == ts;
      ArrayKept(p.frames, r.frames, p.reply.tree, ts);
    }
  }

  /** A finished array is one element of the array around it, or the whole tree. */
  lemma ArrayKept(outer: seq<Frame>, inner: seq<Frame>, tree: Option<Tree>, ts: seq<Tree>)
    requires inner != []
    requires inner[1..] == if outer == [] then [] else [outer[0].(left := outer[0].left - 1)] + outer[1..]
    ensures Settle([Frame(0, ts)] + inner[1..], tree)
         == if outer == [] then ([], Some(Branch(ts))) else AddElement(outer, tree, Branch(ts))
  {
    var done := [Frame(0, ts)] + inner[1..];
    if outer != [] {
      assert done[1] == inner[1..][0] && done[2..] == outer[1..];
    }
  }

  lemma {:induction false} ReceiveItems(p: Parser, v: Value, line: Bytes, rest: Bytes) returns (q: Parser)
    requires Awaiting(p) && Valid(v) && v.Array? && v.items != []
    requires Encode(v) == line + CRLF + EncodeAll(v.items)
    requires Fits(v) && Others(p) + Peak(v) < TWO_32
    ensures Received(p, v, q)
    ensures Resume(Finish(AfterArray(Counted(p, line), line, |v.items|)), EncodeAll(v.items) + rest)
         == Resume(Finish(q), rest)
    decreases v, 0
  {
    var r := ArrayOpened(p, v.items, line);
    q := ReceiveAll(r, v.items, rest);
    ArrayClosed(p, v, line, r, q);
  }

  lemma ArrayParts(v: Value)
    requires v.Array?
    ensures Encode(v) == Header(v) + CRLF + EncodeAll(v.items) && |Header(v)| >= 1 && Header(v)[0] == STAR
    ensures |EncodeAll(v.items)| >= 3 * |v.items|
    ensures v.items == [] ==> Encode(v) == Header(v) + CRLF && TreeOf(v) == Branch([]) && Hits(v) == 0 && !HasError(v)
    ensures v.items == [] ==> LastHeader(v) == Header(v)
  {
    hide EncodeAll;
    if v.items == [] {
      NothingEncoded(v.items);
    }
  }

  lemma {:induction false} ReceiveArray(p: Parser, v: Value, rest: Bytes) returns (q: Parser)
    requires Awaiting(p) && Valid(v) && v.Array?
    requires Fits(v) && Others(p) + Peak(v) < TWO_32
    ensures Received(p, v, q) && Parse(p, Encode(v) + rest) == Resume(Finish(q), rest)
    decreases v, 1
  {
    hide Parse, Finish, Resume, Received, ArrayCount, AfterArray, Others;
    hide Encode, EncodeAll, Header, TreeOf, Hits, HasError, LastHeader;
    ArrayParts(v);
    ArrayHeader(v.items);
    if v.items == [] {
      q := ReceiveEmptyArray(p, v, Header(v), rest);
    } else {
      var tail := EncodeAll(v.items) + rest;
      assert Encode(v) + rest == Header(v) + CRLF + tail;
      ParseArrayLine(p, Header(v), |v.items|, tail);
      q := ReceiveItems(p, v, Header(v), rest);
    }
  }

  /** One complete value, wherever it stands, is taken up exactly. */
  lemma {:induction false} ReceiveValue(p: Parser, v: Value, rest: Bytes) returns (q: Parser)
    requires Awaiting(p) && Valid(v)
    requires Fits(v) && Others(p) + Peak(v) < TWO_32
    ensures Received(p, v, q) && Parse(p, Encode(v) + rest) == Resume(Finish(q), rest)
    decreases v, 2
  {
    hide Parse, Finish, Resume, Received, Awaiting, Others;
    match v
    case Simple(_, _) =>
      q := ReceiveSimple(p, v, rest);
    case Bulk(_) =>
      q := ReceiveBulk(p, v, rest);
    case NullBulk =>
      NullHeader(DOLLAR);
      q := ReceiveNullBulk(p, v, Header(v), rest);
    case NullArray =>
      NullHeader(STAR);
      q := ReceiveEmptyArray(p, v, Header(v), rest);
    case Array(items) =>
      q := ReceiveArray(p, v, rest);
  }

  /** A line is refused exactly if its first character is none of the five types. */
  lemma RefusedExactly(p: Parser, line: Bytes)
    ensures OnLine(p, line) == Done(-1, Counted(p, line)) <==> LineHead(line) !in {STAR, DOLLAR, PLUS, MINUS, COLON}
    ensures OnLine(p, line).Done? ==>
              OnLine(p, line).code == if LineHead(line) in {STAR, PLUS, MINUS, COLON} then 1 else -1
  {
  }

  /** A foreign line ends the call with -1, wherever it stands; it is taken, and what follows is left. */
  lemma ForeignLineRefused(p: Parser, line: Bytes, rest: Bytes)
    requires p.mode.ReadLine? && NoCrlf(line) && LineHead(line) !in {STAR, DOLLAR, PLUS, MINUS, COLON}
    ensures Parse(p, line + CRLF + rest) == Result(-1, Counted(p, line), rest)
  {
    hide Parse;
    ParseLine(p, line, rest);
    RefusedExactly(p, line);
  }

  /** The reply that a complete value must produce. */
  predicate ReplyMatches(reply: Reply, v: Value, keep: bool) {
    && reply.status == Some(CString(LastHeader(v)))
    && reply.totalLen == U32(|Encode(v)|)
    && reply.hits == Hits(v)
    && reply.error == HasError(v)
    && (keep && (v.Array? || v.NullArray?) ==> reply.tree == Some(TreeOf(v)))
    && (keep && v.Bulk? ==> reply.value == v.data)
    && (!keep || v.Simple? || v.Bulk? || v.NullBulk? ==> reply.tree == None)
    && (!keep || !v.Bulk? ==> reply.value == [])
  }

  /** parse_response on the wire form of any value followed by anything: one reply, exactly the
      value's bytes consumed, and the parser back in its initial state. */
  lemma ParseInvertsEncode(p: Parser, v: Value, rest: Bytes)
    requires p.mode.Initial? && p.frames == []
    requires Valid(v) && Receivable(v)
    ensures var r := Parse(p, Encode(v) + rest);
            && r.code == 1
            && r.buf == rest
            && r.p.mode.Initial? && r.p.frames == [] && r.p.keep == p.keep
            && ReplyMatches(r.p.reply, v, p.keep)
  {
    hide Encode, TreeOf, Hits, HasError, Fits, Peak, Valid, Parse, AddElement, Received;
    var s := Fresh(p, Encode(v) + rest);
    var q := ReceiveValue(s, v, rest);
    ReceivedReply(s, v, q);
  }

  /** The first turn of a call clears the reply. */
  lemma Fresh(p: Parser, buf: Bytes) returns (s: Parser)
    requires p.mode.Initial? && p.frames == []
    ensures s.mode.ReadLine? && s.respLen == 0 && s.total == 0 && s.reply == EMPTY_REPLY
    ensures s.frames == [] && s.keep == p.keep
    ensures Parse(p, buf) == Parse(s, buf)
  {
    s := p.(mode := ReadLine, respLen := 0, total := 0, reply := EMPTY_REPLY);
    assert Step(p, buf) == Outcome(More(s), buf);
  }

  lemma ReceivedReply(s: Parser, v: Value, q: Parser)
    requires s.mode.ReadLine? && s.respLen == 0 && s.total == 0 && s.reply == EMPTY_REPLY && s.frames == []
    requires Received(s, v, q)
    ensures Finish(q).Done? && Finish(q).code == 1
    ensures var r := Finish(q).p;
            r.mode.Initial? && r.frames == [] && r.keep == s.keep && ReplyMatches(r.reply, v, s.keep)
  {
    hide Encode, TreeOf, Hits, HasError, AddElement;
  }

  lemma PollNothing(p: Parser)
    requires p.mode.Initial?
    ensures Poll(p, []).events == [] && Poll(p, []).buf == []
  {
    var s, none: Bytes := p.(mode := ReadLine, respLen := 0, total := 0, reply := EMPTY_REPLY), [];
    assert Step(p, none) == Outcome(More(s), none);
    assert Step(s, none) == Outcome(Done(0, s), none);
    assert Parse(s, none) == Result(0, s, none);
    assert Parse(p, none) == Parse(s, none);
  }

  lemma PollOne(p: Parser, v: Value, rest: Bytes) returns (q: Parser)
    requires p.mode.Initial? && p.frames == []
    requires Valid(v) && Receivable(v)
    ensures q.mode.Initial? && q.frames == [] && q.keep == p.keep && ReplyMatches(q.reply, v, p.keep)
    ensures Poll(p, Encode(v) + rest).events == [Replied(q.reply)] + Poll(q, rest).events
    ensures Poll(p, Encode(v) + rest).buf == Poll(q, rest).buf
  {
    ParseInvertsEncode(p, v, rest);
    q := Parse(p, Encode(v) + rest).p;
  }

  /** A stream of values yields one matching reply per value, in order, and nothing is left. */
  lemma {:induction false} PollInvertsEncodeAll(p: Parser, vs: seq<Value>)
    requires p.mode.Initial? && p.frames == []
    requires AllValid(vs) && forall i :: 0 <= i < |vs| ==> Receivable(vs[i])
    ensures var s := Poll(p, EncodeAll(vs));
            && s.buf == []
            && |s.events| == |vs|
            && forall i :: 0 <= i < |vs| ==> s.events[i].Replied? && ReplyMatches(s.events[i].reply, vs[i], p.keep)
    decreases |vs|
  {
    hide Poll, Encode, ReplyMatches;
    if vs == [] {
      PollNothing(p);
    } else {
      var q := PollOne(p, vs[0], EncodeAll(vs[1..]));
      PollInvertsEncodeAll(q, vs[1..]);
    }
  }

  /** The same for the stream cut into chunks in any way. */
  lemma ChunkedStreamInvertsEncodeAll(p: Parser, vs: seq<Value>, chunks: seq<Bytes>)
    requires p.mode.Initial? && p.frames == []
    requires AllValid(vs) && forall i :: 0 <= i < |vs| ==> Receivable(vs[i])
    requires Concat(chunks) == EncodeAll(vs)
    ensures var s := PollChunks(p, [], chunks);
            && s.buf == []
            && |s.events| == |vs|
            && forall i :: 0 <= i < |vs| ==> s.events[i].Replied? && ReplyMatches(s.events[i].reply, vs[i], p.keep)
  {
    ChunkingIsInvisible(p, [], chunks);
    assert [] + Concat(chunks) == EncodeAll(vs);
    PollInvertsEncodeAll(p, vs);
  }
}
