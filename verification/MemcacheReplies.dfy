/** Memcache text replies: what the parser makes of a well-formed retrieval, and the parser object. */
module MemcacheReplies {
  import opened ByteStrings
  import opened MemcacheText
  import opened Scanf

  datatype Item = Item(key: Bytes, flags: nat, data: Bytes)

  /** A key as the protocol allows it, flags and size within 32 bits. */
  predicate Sendable(i: Item) {
    ValidKey(i.key) && i.flags < TWO_32 && |i.data| + 2 < TWO_32
  }

  predicate ValidKey(key: Bytes) {
    key != [] && NUL !in key && forall k :: 0 <= k < |key| ==> !IsSpace(key[k])
  }

  /** "VALUE <key> <flags> <bytes>". */
  function Announcement(key: Bytes, flags: nat, size: nat): Bytes {
    VALUE + ([SPACE] + (key + ([SPACE] + (Dec(flags) + ([SPACE] + Dec(size))))))
  }

  function ValueLine(i: Item): Bytes {
    Announcement(i.key, i.flags, |i.data|)
  }

  function Section(i: Item): Bytes {
    ValueLine(i) + CRLF + i.data + CRLF
  }

  function Wire(items: seq<Item>): Bytes {
    if items == [] then END + CRLF else Section(items[0]) + Wire(items[1..])
  }

  /** The first line of a retrieval reply. */
  function FirstLine(items: seq<Item>): Bytes {
    if items == [] then END else ValueLine(items[0])
  }

  /** The status of a reply is its first line. */
  function StatusAfter(p: Parser, line: Bytes): Option<Bytes> {
    if p.reply.status.None? then Some(line) else p.reply.status
  }

  // ----- the announced length -----

  predicate Plain(s: Bytes) {
    forall k :: 0 <= k < |s| ==> s[k] != NUL && s[k] != CR
  }

  lemma PlainPair(a: Bytes, b: Bytes)
    requires Plain(a) && Plain(b)
    ensures Plain(a + b)
  {
  }

  lemma AnnouncementPlain(key: Bytes, flags: nat, size: nat)
    requires ValidKey(key)
    ensures Plain(Announcement(key, flags, size))
  {
    hide Dec;
    assert Plain(VALUE) && Plain([SPACE]) && Plain(key);
    PlainDigits(flags);
    PlainDigits(size);
    hide Plain;
    PlainPair([SPACE], Dec(size));
    PlainPair(Dec(flags), [SPACE] + Dec(size));
    var t := Dec(flags) + ([SPACE] + Dec(size));
    PlainPair([SPACE], t);
    PlainPair(key, [SPACE] + t);
    PlainPair([SPACE], key + ([SPACE] + t));
    PlainPair(VALUE, [SPACE] + (key + ([SPACE] + t)));
  }

  lemma PlainDigits(n: nat)
    ensures Plain(Dec(n))
  {
    hide Dec;
    forall k | 0 <= k < |Dec(n)| ensures Dec(n)[k] != NUL && Dec(n)[k] != CR {
      assert IsDigit(Dec(n)[k]);
    }
  }

  lemma PlainIsWhole(s: Bytes)
    requires Plain(s)
    ensures CString(s) == s && NoCrlf(s)
  {
    assert NUL !in s;
    CStringWhole(s);
  }

  lemma {:induction false} SkipWordStops(w: Bytes, rest: Bytes)
    requires forall k :: 0 <= k < |w| ==> !IsSpace(w[k])
    requires rest == [] || IsSpace(rest[0])
    ensures SkipWord(w + rest) == rest
    decreases |w|
  {
    if w == [] {
      assert w + rest == rest;
    } else {
      assert (w + rest)[1..] == w[1..] + rest;
      SkipWordStops(w[1..], rest);
    }
  }

  lemma SpaceBeforeNumber(n: nat, post: Bytes)
    requires n < TWO_32 && (post == [] || !IsDigit(post[0]))
    ensures ScanUint([SPACE] + (Dec(n) + post)) == Number(n, post)
  {
    hide Dec, ScanUint;
    var s := Dec(n) + post;
    assert IsDigit(Dec(n)[0]) && s[0] == Dec(n)[0];
    SpaceIgnored(s);
    UintReadsBack(n, post);
  }

  lemma SpaceIgnored(s: Bytes)
    requires s != [] && IsDigit(s[0])
    ensures ScanUint([SPACE] + s) == ScanUint(s)
  {
    hide ScanDigits, SkipSpace;
    SkipOneSpace(s);
    NoSkip(s);
  }

  /** The length announced by a well-formed VALUE line is the one the parser finds. */
  lemma AnnouncedLength(key: Bytes, flags: nat, n: nat)
    requires ValidKey(key) && flags < TWO_32 && n < TWO_32
    ensures ValueLength(Announcement(key, flags, n)) == Some(n)
  {
    hide Dec, SkipSpace, SkipWord, ScanUint, CString, Plain;
    var line := Announcement(key, flags, n);
    AnnouncementPlain(key, flags, n);
    PlainIsWhole(line);
    var none: Bytes := [];
    var size := [SPACE] + (Dec(n) + none);
    assert Dec(n) + none == Dec(n);
    var numbers := [SPACE] + (Dec(flags) + size);
    var tail := key + numbers;
    assert line == VALUE + ([SPACE] + tail);
    NoSkip(line);
    SkipWordStops(VALUE, [SPACE] + tail);
    assert tail[0] == key[0];
    SkipOneSpace(tail);
    SkipWordStops(key, numbers);
    SpaceBeforeNumber(flags, size);
    SpaceBeforeNumber(n, none);
  }

  // ----- a whole reply -----

  lemma LineStep(p: Parser, line: Bytes, rest: Bytes)
    requires p.mode.ReadSection? && NoCrlf(line)
    ensures Step(p, line + CRLF + rest) == OnLine(p, line, rest)
  {
    hide OnLine;
    FindCrlfLine(line, rest);
  }

  /** The parser after a VALUE line that announces n bytes. */
  function Told(p: Parser, line: Bytes, n: nat): Parser {
    var len := p.respLen + |line| + 2;
    var status := if p.reply.status.None? then Some(line) else p.reply.status;
    Parser(ReadValue, n, len, Reply(status, p.reply.error, p.reply.hits, U32(len)))
  }

  /** The parser waiting for the data of an item. */
  function Awaiting(p: Parser, i: Item): Parser {
    Told(p, ValueLine(i), |i.data|)
  }

  lemma AnnouncementStep(p: Parser, key: Bytes, flags: nat, n: nat, tail: Bytes)
    requires p.mode.ReadSection? && ValidKey(key) && flags < TWO_32 && n < TWO_32
    ensures var line := Announcement(key, flags, n); Step(p, line + CRLF + tail) == More(Told(p, line, n), tail)
  {
    hide ValueLength, OnLine, Plain, Step, U32, Dec;
    var line := Announcement(key, flags, n);
    AnnouncementPlain(key, flags, n);
    PlainIsWhole(line);
    AnnouncedLength(key, flags, n);
    LineStep(p, line, tail);
    assert VALUE <= line;
    ValueOnLine(p, line, n, tail);
  }

  /** The parser after a whole section. */
  function AfterSection(p: Parser, i: Item): Parser {
    var q := Awaiting(p, i);
    q.(mode := ReadSection, respLen := p.respLen + |Section(i)|, reply := q.reply.(hits := q.reply.hits + 1))
  }

  lemma HeaderParses(p: Parser, i: Item, tail: Bytes)
    requires p.mode.ReadSection? && Sendable(i)
    ensures Parse(p, ValueLine(i) + CRLF + tail) == Parse(Awaiting(p, i), tail)
  {
    hide Announcement, U32, Parse, Step;
    AnnouncementStep(p, i.key, i.flags, |i.data|, tail);
    ParseStep(p, ValueLine(i) + CRLF + tail);
  }

  lemma DataParses(q: Parser, data: Bytes, rest: Bytes)
    requires q.mode.ReadValue? && q.valueLen == |data| && |data| + 2 < TWO_32
    ensures Parse(q, data + CRLF + rest)
         == Parse(q.(mode := ReadSection, respLen := q.respLen + |data| + 2,
                     reply := q.reply.(hits := q.reply.hits + 1)), rest)
  {
    hide Parse, U32;
    var buf := data + CRLF + rest;
    assert Drain(buf, |data|) == CRLF + rest;
    assert Drain(CRLF + rest, 2) == rest;
    ParseStep(q, buf);
  }

  /** One VALUE section is taken whole and counted as one hit. */
  lemma SectionParses(p: Parser, i: Item, rest: Bytes)
    requires p.mode.ReadSection? && Sendable(i)
    ensures Parse(p, Section(i) + rest) == Parse(AfterSection(p, i), rest)
  {
    hide ValueLine, U32, Parse;
    var tail := i.data + CRLF + rest;
    assert Section(i) + rest == ValueLine(i) + CRLF + tail;
    HeaderParses(p, i, tail);
    DataParses(Awaiting(p, i), i.data, rest);
  }

  lemma ValueOnLine(p: Parser, line: Bytes, n: nat, buf: Bytes)
    requires VALUE <= line && ValueLength(line) == Some(n)
    ensures OnLine(p, line, buf) == More(Told(p, line, n), buf)
  {
    hide ValueLength, U32;
  }

  lemma ParseStep(p: Parser, buf: Bytes)
    requires Step(p, buf).More?
    ensures Parse(p, buf) == Parse(Step(p, buf).p, Step(p, buf).buf)
  {
    hide Step;
  }

  /** The rest of a reply: every section is a hit, END completes it, and the reported length is that of all bytes. */
  lemma {:induction false} SectionsParse(p: Parser, items: seq<Item>, rest: Bytes)
    requires p.mode.ReadSection? && forall k :: 0 <= k < |items| ==> Sendable(items[k])
    ensures var r := Parse(p, Wire(items) + rest);
            && r.code == 1 && r.buf == rest && r.p.mode == Initial
            && r.p.reply.hits == p.reply.hits + |items| && r.p.reply.error == p.reply.error
            && r.p.reply.totalLen == U32(p.respLen + |Wire(items)|)
            && r.p.reply.status == StatusAfter(p, FirstLine(items))
    decreases |items|
  {
    hide Parse, Section, Sendable, U32, ValueLine;
    if items == [] {
      EndParses(p, rest);
    } else {
      SectionParses(p, items[0], Wire(items[1..]) + rest);
      assert Wire(items) + rest == Section(items[0]) + (Wire(items[1..]) + rest);
      SectionsParse(AfterSection(p, items[0]), items[1..], rest);
    }
  }

  lemma EndParses(p: Parser, rest: Bytes)
    requires p.mode.ReadSection?
    ensures var r := Parse(p, END + CRLF + rest);
            && r.code == 1 && r.buf == rest && r.p.mode == Initial
            && r.p.reply.hits == p.reply.hits && r.p.reply.error == p.reply.error
            && r.p.reply.totalLen == U32(p.respLen + |END + CRLF|) && r.p.reply.status == StatusAfter(p, END)
  {
    assert NoCrlf(END) && !(VALUE <= END);
    LastLineParses(p, END, rest);
  }

  /** A line that completes a reply. */
  lemma LastLineParses(p: Parser, line: Bytes, rest: Bytes)
    requires p.mode.ReadSection? && NoCrlf(line) && !(VALUE <= line) && (END <= line || STORED <= line)
    ensures var r := Parse(p, line + CRLF + rest);
            && r.code == 1 && r.buf == rest && r.p.mode == Initial
            && r.p.reply.hits == p.reply.hits && r.p.reply.error == p.reply.error
            && r.p.reply.totalLen == U32(p.respLen + |line + CRLF|) && r.p.reply.status == StatusAfter(p, line)
  {
    hide U32, Parse, ValueLength;
    var buf := line + CRLF + rest;
    LineStep(p, line, rest);
    ParseStep(p, buf);
    var q := Step(p, buf).p;
    ParseDone(q, rest);
  }

  lemma ParseDone(p: Parser, buf: Bytes)
    requires Step(p, buf).Done?
    ensures Parse(p, buf) == Result(Step(p, buf).code, Step(p, buf).p, Step(p, buf).buf)
  {
    hide Step;
  }

  /** A retrieval reply of any items, whatever bytes they hold, is consumed exactly, with one hit per item. */
  lemma ReplyParses(p: Parser, items: seq<Item>, rest: Bytes)
    requires p.mode.Initial? && forall k :: 0 <= k < |items| ==> Sendable(items[k])
    ensures var r := Parse(p, Wire(items) + rest);
            && r.code == 1 && r.buf == rest && r.p.mode == Initial
            && r.p.reply.hits == |items| && !r.p.reply.error && r.p.reply.totalLen == U32(|Wire(items)|)
            && r.p.reply.status == Some(FirstLine(items))
  {
    hide Parse, Wire, Sendable, U32, FirstLine;
    ParseStep(p, Wire(items) + rest);
    SectionsParse(p.(mode := ReadSection, respLen := 0, reply := CLEAR), items, rest);
  }

  // ----- a reply that cannot be resumed -----

  lemma StillSound(p: Parser, buf: Bytes)
    requires Sound(p, buf) && Step(p, buf).More?
    ensures Sound(Step(p, buf).p, Step(p, buf).buf)
  {
    hide Step, Cuts;
  }

  lemma FirstStep(p: Parser, buf: Bytes)
    requires p.mode.Initial?
    ensures Step(p, buf) == More(p.(mode := ReadSection, respLen := 0, reply := CLEAR), buf)
  {
  }

  lemma HugeValueCuts(p: Parser, line: Bytes, n: nat, first: byte)
    requires n == TWO_32 - 2
    ensures Cuts(Told(p, line, n), [first])
  {
    assert U32(n + 2) == 0;
  }

  /** The line "VALUE k 0 4294967294", followed by one byte of the value: the announced length plus 2 wraps to 0, the
      value is dropped at once, and the byte that arrives next is swallowed with it. */
  lemma HugeValueSwallows(p: Parser, key: Bytes, flags: nat, n: nat, first: byte, next: byte)
    requires p.mode.Initial? && key == [107] && flags == 0 && n == TWO_32 - 2
    ensures !Resumes(p, Announcement(key, flags, n) + CRLF + [first], [next])
  {
    hide *;
    var line := Announcement(key, flags, n);
    var a := line + CRLF + [first];
    var p1 := p.(mode := ReadSection, respLen := 0, reply := CLEAR);
    var p2 := Told(p1, line, n);
    FirstStep(p, a);
    LetterK(key);
    AnnouncementStep(p1, key, flags, n, [first]);
    HugeValueCuts(p1, line, n, first);
    CutIsUnsound(p2, [first]);
    if Sound(p, a) {
      StillSound(p, a);
      StillSound(p1, a);
    }
    UnsoundFails(p, a, next);
  }

  lemma LetterK(key: Bytes)
    requires key == [107]
    ensures ValidKey(key)
  {
  }

  lemma CutIsUnsound(p: Parser, buf: Bytes)
    requires Cuts(p, buf)
    ensures !Sound(p, buf)
  {
  }

  // ----- the object -----

  class MemcacheProtocol {
    var mode: Mode
    var valueLen: nat
    var respLen: nat
    var reply: Reply
    var buf: Bytes

    ghost function Now(): Parser
      reads this
    {
      Parser(mode, valueLen, respLen, reply)
    }

    constructor ()
      ensures Now() == Parser(Initial, 0, 0, CLEAR) && buf == []
    {
      mode, valueLen, respLen, reply, buf := Initial, 0, 0, CLEAR, [];
    }

    /** The rs_read_section case once a line is there; None means go on. */
    method HandleLine(line: Bytes) returns (code: Option<int>)
      modifies this
      ensures buf == old(buf)
      ensures OnLine(old(Now()), line, buf)
           == match code case None => More(Now(), buf) case Some(c) => Done(c, Now(), buf)
    {
      hide ValueLength, U32;
      respLen := respLen + |line| + 2;
      if reply.status == None {
        reply := reply.(status := Some(line));
      }
      reply := reply.(totalLen := U32(respLen));
      if VALUE <= line {
        var n := ValueLength(line);
        if n == None {
          return Some(-1);
        }
        valueLen := n.value;
        mode := ReadValue;
        return None;
      } else if END <= line || STORED <= line {
        mode := ReadEnd;
        return None;
      } else {
        reply := reply.(error := true);
        return Some(-1);
      }
    }

    /** memcache_text_protocol::parse_response. */
    method ParseResponse() returns (code: int)
      modifies this
      ensures Result(code, Now(), buf) == Parse(old(Now()), old(buf))
    {
      hide Parse, OnLine, U32;
      ghost var goal := Parse(Now(), buf);
      while true
        invariant Parse(Now(), buf) == goal
        decreases |buf|, Rank(mode)
      {
        Unfold(Now(), buf);
        StepProgress(Now(), buf);
        match mode {
          case Initial =>
            reply := CLEAR;
            mode := ReadSection;
            respLen := 0;
          case ReadSection =>
            var i := FindCrlf(buf);
            if i < 0 {
              return 0;
            }
            var line := buf[..i];
            buf := buf[i + 2..];
            var verdict := HandleLine(line);
            if verdict.Some? {
              return verdict.value;
            }
          case ReadValue =>
            var need := U32(valueLen + 2);
            if |buf| >= need {
              buf := Drain(buf, valueLen);
              buf := Drain(buf, 2);
              reply := reply.(hits := reply.hits + 1);
              respLen := respLen + need;
              mode := ReadSection;
            } else {
              return 0;
            }
          case ReadEnd =>
            mode := Initial;
            return 1;
        }
      }
    }
  }

  lemma Unfold(p: Parser, buf: Bytes)
    ensures Parse(p, buf) == match Step(p, buf)
                             case More(q, rest) => Parse(q, rest)
                             case Done(code, q, rest) => Result(code, q, rest)
  {
    hide Step;
  }
}
