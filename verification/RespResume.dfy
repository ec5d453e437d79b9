/** Resumability: cutting the byte stream into reads changes nothing. */
module RespResume {
  import opened ByteStrings
  import opened RespParser

  /** What the caller of parse_response sees over time. */
  datatype Event = Replied(reply: Reply) | Rejected

  datatype Session = Session(events: seq<Event>, p: Parser, buf: Bytes)

  /** A turn that does not wait for input is unaffected by bytes arriving behind. */
  lemma StepExtend(p: Parser, a: Bytes, b: Bytes)
    requires Ready(p, a)
    requires Step(p, a).turn.More? || Step(p, a).turn.code != 0
    ensures Ready(p, a + b)
    ensures Step(p, a + b) == Step(p, a).(buf := Step(p, a).buf + b)
  {
    hide OnLine, OnBulkEnd;
    match p.mode
    case Initial =>
    case ReadLine => FindCrlfExtend(a, b);
    case ReadBulk =>
    case EndBulk =>
      if p.bulkLen >= 0 {
        assert (a + b)[..p.bulkLen] == a[..p.bulkLen];
        assert (a + b)[p.bulkLen + 2..] == a[p.bulkLen + 2..] + b;
      }
  }

  /** A call that waits for input (0) can be taken up again with the bytes it left plus the new ones;
      a verdict (1 or -1) is final. */
  lemma {:induction false} ParseExtend(p: Parser, a: Bytes, b: Bytes)
    requires Ready(p, a)
    ensures Ready(p, a + b)
    ensures var r := Parse(p, a);
            Parse(p, a + b) == if r.code == 0 then Parse(r.p, r.buf + b) else r.(buf := r.buf + b)
    decreases |a|, Rank(p.mode)
  {
    StepProgress(p, a);
    var o := Step(p, a);
    if o.turn.More? || o.turn.code != 0 {
      StepExtend(p, a, b);
    }
    if o.turn.More? {
      ParseExtend(o.turn.p, o.buf, b);
    }
  }

  /** A call that reaches a verdict consumes at least one byte. */
  lemma {:induction false} VerdictConsumes(p: Parser, buf: Bytes)
    requires Ready(p, buf) && (p.mode.EndBulk? ==> p.bulkLen >= 0)
    requires Parse(p, buf).code != 0
    ensures |Parse(p, buf).buf| < |buf|
    decreases |buf|, Rank(p.mode)
  {
    StepProgress(p, buf);
    var o := Step(p, buf);
    if o.turn.More? && |o.buf| == |buf| {
      VerdictConsumes(o.turn.p, o.buf);
    }
  }

  /** parse_response called until it asks for more input. */
  function Poll(p: Parser, buf: Bytes): (s: Session)
    requires AtRest(p)
    ensures AtRest(s.p)
    decreases |buf|
  {
    var r := Parse(p, buf);
    if r.code == 0 then Session([], r.p, r.buf)
    else
      VerdictConsumes(p, buf);
      var s := Poll(r.p, r.buf);
      s.(events := [if r.code == 1 then Replied(r.p.reply) else Rejected] + s.events)
  }

  /** The bytes arrive in chunks; the client polls after each of them. */
  function PollChunks(p: Parser, buf: Bytes, chunks: seq<Bytes>): (s: Session)
    requires AtRest(p)
    ensures AtRest(s.p)
    decreases |chunks|
  {
    var s := Poll(p, buf);
    if chunks == [] then s
    else
      var t := PollChunks(s.p, s.buf + chunks[0], chunks[1..]);
      t.(events := s.events + t.events)
  }

  function Concat(chunks: seq<Bytes>): Bytes {
    if chunks == [] then [] else chunks[0] + Concat(chunks[1..])
  }

  lemma {:induction false} PollExtend(p: Parser, a: Bytes, b: Bytes)
    requires AtRest(p)
    ensures var s := Poll(p, a);
            var t := Poll(s.p, s.buf + b);
            Poll(p, a + b) == t.(events := s.events + t.events)
    decreases |a|
  {
    hide Parse;
    var r := Parse(p, a);
    ParseExtend(p, a, b);
    if r.code != 0 {
      VerdictConsumes(p, a);
      PollExtend(r.p, r.buf, b);
      var s := Poll(r.p, r.buf);
      var t := Poll(s.p, s.buf + b);
      var e := [if r.code == 1 then Replied(r.p.reply) else Rejected];
      assert e + (s.events + t.events) == (e + s.events) + t.events;
    }
  }

  /** Every way of cutting a stream into chunks yields the same replies, the same rejected lines,
      the same parser state and the same bytes left over as receiving the stream at once. */
  lemma {:induction false} ChunkingIsInvisible(p: Parser, buf: Bytes, chunks: seq<Bytes>)
    requires AtRest(p)
    ensures PollChunks(p, buf, chunks) == Poll(p, buf + Concat(chunks))
    decreases |chunks|
  {
    hide Poll;
    if chunks == [] {
      assert buf + Concat(chunks) == buf;
    } else {
      var s := Poll(p, buf);
      ChunkingIsInvisible(s.p, s.buf + chunks[0], chunks[1..]);
      assert (s.buf + chunks[0]) + Concat(chunks[1..]) == s.buf + Concat(chunks);
      PollExtend(p, buf, Concat(chunks));
    }
  }

  // ----- byte accounting -----

  /** Bytes of the current reply counted so far and bytes still buffered. */
  function Accounted(p: Parser, buf: Bytes): int {
    (if p.mode.Initial? then 0 else p.respLen) + |buf|
      - (if p.mode.EndBulk? && p.bulkLen >= 0 then p.bulkLen + 2 else 0)
  }

  predicate Accounts(p: Parser, buf: Bytes, code: int, q: Parser, rest: Bytes) {
    if code == 1 then
      q.mode.Initial? && q.respLen + |rest| == Accounted(p, buf) && q.reply.totalLen == U32(q.respLen)
    else
      Accounted(q, rest) == Accounted(p, buf)
  }

  lemma StepAccounts(p: Parser, buf: Bytes)
    requires Ready(p, buf)
    ensures var o := Step(p, buf);
            Accounts(p, buf, if o.turn.Done? then o.turn.code else 0, o.turn.p, o.buf)
  {
    match p.mode
    case Initial =>
    case ReadBulk =>
    case ReadLine =>
      var i := FindCrlf(buf);
      if i >= 0 {
        LineLands(p, buf[..i]);
      }
    case EndBulk =>
      BulkLands(p, if p.bulkLen < 0 then [] else buf[..p.bulkLen]);
  }

  /** No byte is lost or counted twice: what is left of the buffer is a suffix of it, and the length
      counter grows by exactly what was taken.  A complete reply reports the length of all its bytes,
      including those taken by earlier calls. */
  lemma {:induction false} ParseAccounts(p: Parser, buf: Bytes)
    requires Ready(p, buf)
    ensures var r := Parse(p, buf);
            && r.buf == buf[|buf| - |r.buf|..]
            && Accounts(p, buf, r.code, r.p, r.buf)
    decreases |buf|, Rank(p.mode)
  {
    StepProgress(p, buf);
    StepAccounts(p, buf);
    var o := Step(p, buf);
    if o.turn.More? {
      ParseAccounts(o.turn.p, o.buf);
    }
  }
}
