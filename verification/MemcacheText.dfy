/** memcache_text_protocol::parse_response with keep-value off, and when it can be taken up again. */
module MemcacheText {
  import opened ByteStrings
  import opened Scanf
  import RespResume

  // ----- the parser -----

  datatype Mode = Initial | ReadSection | ReadValue | ReadEnd

  datatype Reply = Reply(status: Option<Bytes>, error: bool, hits: nat, totalLen: nat)

  const CLEAR := Reply(None, false, 0, 0)

  datatype Parser = Parser(mode: Mode, valueLen: nat, respLen: nat, reply: Reply)

  datatype Turn = More(p: Parser, buf: Bytes) | Done(code: int, p: Parser, buf: Bytes)

  const VALUE: Bytes := Ascii("VALUE")
  const END: Bytes := Ascii("END")
  const STORED: Bytes := Ascii("STORED")

  /** What is left after the word a "%s" conversion takes. */
  function SkipWord(s: Bytes): (r: Bytes)
    ensures |r| <= |s|
  {
    if s != [] && !IsSpace(s[0]) then SkipWord(s[1..]) else s
  }

  /** The fourth field of "%s %s %u %u %u": the length of the value. */
  function ValueLength(line: Bytes): (n: Option<nat>)
    ensures n.Some? ==> n.value < TWO_32
  {
    var s := SkipSpace(SkipWord(SkipSpace(CString(line))));
    if s == [] then None
    else
      match ScanUint(SkipWord(s))
      case NoNumber => None
      case Number(_, t) =>
        match ScanUint(t)
        case NoNumber => None
        case Number(v, _) => Some(v)
  }

  /** A line of the reply, already counted. */
  function OnLine(p: Parser, line: Bytes, buf: Bytes): Turn {
    var len := p.respLen + |line| + 2;
    var status := if p.reply.status.None? then Some(line) else p.reply.status;
    var q := p.(respLen := len, reply := p.reply.(status := status, totalLen := U32(len)));
    if VALUE <= line then
      match ValueLength(line)
      case None => Done(-1, q, buf)
      case Some(n) => More(q.(mode := ReadValue, valueLen := n), buf)
    else if END <= line || STORED <= line then More(q.(mode := ReadEnd), buf)
    else Done(-1, q.(reply := q.reply.(error := true)), buf)
  }

  /** evbuffer_drain: as many bytes as there are. */
  function Drain(buf: Bytes, n: nat): (r: Bytes)
    ensures |r| <= |buf|
  {
    if n <= |buf| then buf[n..] else []
  }

  /** The bytes waited for before a value is dropped, in 32-bit arithmetic. */
  function Needed(p: Parser): (n: nat)
    ensures p.valueLen + 2 < TWO_32 ==> n == p.valueLen + 2
  {
    U32(p.valueLen + 2)
  }

  /** One turn of the while/switch loop. */
  function Step(p: Parser, buf: Bytes): Turn {
    match p.mode
    case Initial => More(p.(mode := ReadSection, respLen := 0, reply := CLEAR), buf)
    case ReadSection =>
      var i := FindCrlf(buf);
      if i < 0 then Done(0, p, buf) else OnLine(p, buf[..i], buf[i + 2..])
    case ReadValue =>
      if |buf| >= Needed(p) then
        More(p.(mode := ReadSection, respLen := p.respLen + Needed(p), reply := p.reply.(hits := p.reply.hits + 1)),
             Drain(Drain(buf, p.valueLen), 2))
      else Done(0, p, buf)
    case ReadEnd => Done(1, p.(mode := Initial), buf)
  }

  function Rank(m: Mode): nat {
    match m case ReadEnd => 0 case ReadSection => 1 case ReadValue => 2 case Initial => 3
  }

  /** Every turn that goes on takes bytes or moves on to a later state. */
  lemma StepProgress(p: Parser, buf: Bytes)
    ensures var t := Step(p, buf); |t.buf| <= |buf|
    ensures var t := Step(p, buf); t.More? ==> |t.buf| < |buf| || Rank(t.p.mode) < Rank(p.mode)
  {
    hide ValueLength;
    if p.mode.ReadSection? && FindCrlf(buf) >= 0 {
      assert |OnLine(p, buf[..FindCrlf(buf)], buf[FindCrlf(buf) + 2..]).buf| < |buf|;
    }
  }

  /** parse_response: 0 waits for input, 1 is a complete reply, -1 an error. */
  datatype Result = Result(code: int, p: Parser, buf: Bytes)

  function Parse(p: Parser, buf: Bytes): (r: Result)
    ensures |r.buf| <= |buf|
    decreases |buf|, Rank(p.mode)
  {
    StepProgress(p, buf);
    match Step(p, buf)
    case Done(code, q, rest) => Result(code, q, rest)
    case More(q, rest) => Parse(q, rest)
  }

  // ----- resuming -----

  /** The 32-bit sum wrapped: a value is dropped before all of it has arrived. */
  predicate Cuts(p: Parser, buf: Bytes) {
    p.mode.ReadValue? && Needed(p) <= |buf| < p.valueLen + 2
  }

  lemma StepExtend(p: Parser, a: Bytes, b: Bytes)
    requires !Cuts(p, a) && (Step(p, a).More? || Step(p, a).code != 0)
    ensures Step(p, a + b) == Step(p, a).(buf := Step(p, a).buf + b)
  {
    hide OnLine, Needed;
    match p.mode
    case Initial =>
    case ReadEnd =>
    case ReadSection =>
      FindCrlfExtend(a, b);
      OnLineExtend(p, a[..FindCrlf(a)], a[FindCrlf(a) + 2..], b);
    case ReadValue =>
      DrainExtend(a, b, p.valueLen);
      DrainExtend(Drain(a, p.valueLen), b, 2);
  }

  lemma OnLineExtend(p: Parser, line: Bytes, a: Bytes, b: Bytes)
    ensures OnLine(p, line, a + b) == OnLine(p, line, a).(buf := a + b) && OnLine(p, line, a).buf == a
    ensures OnLine(p, line, a).Done? ==> OnLine(p, line, a).code != 0
  {
    hide ValueLength;
  }

  lemma DrainExtend(a: Bytes, b: Bytes, n: nat)
    requires n <= |a|
    ensures Drain(a + b, n) == Drain(a, n) + b
  {
  }

  /** No turn of the call cuts a value short. */
  predicate Sound(p: Parser, buf: Bytes)
    decreases |buf|, Rank(p.mode)
  {
    StepProgress(p, buf);
    !Cuts(p, buf) && (Step(p, buf).More? ==> Sound(Step(p, buf).p, Step(p, buf).buf))
  }

  /** The call on a, taken up again with b, is the call on a + b. */
  predicate Resumes(p: Parser, a: Bytes, b: Bytes) {
    var r := Parse(p, a);
    Parse(p, a + b) == if r.code == 0 then Parse(r.p, r.buf + b) else r.(buf := r.buf + b)
  }

  lemma {:induction false} SoundResumes(p: Parser, a: Bytes, b: Bytes)
    requires Sound(p, a)
    ensures Resumes(p, a, b)
    decreases |a|, Rank(p.mode)
  {
    hide Step;
    StepProgress(p, a);
    var t := Step(p, a);
    if t.More? || t.code != 0 {
      StepExtend(p, a, b);
    }
    if t.More? {
      SoundResumes(t.p, t.buf, b);
    } else {
      StopsAt(p, a);
    }
  }

  lemma StopsAt(p: Parser, buf: Bytes)
    requires Step(p, buf).Done?
    ensures Step(p, buf).code == 0 ==> Step(p, buf) == Done(0, p, buf)
  {
    hide ValueLength;
  }

  /** A call that cut a value has taken all there was, and the next byte as well if it comes at once. */
  predicate Swallows(p: Parser, a: Bytes, x: byte) {
    var r := Parse(p, a);
    r.code == 0 && r.buf == [] && Parse(p, a + [x]) == r && Parse(r.p, [x]) == Result(0, r.p, [x])
  }

  /** A value cut short swallows whatever arrives next. */
  lemma CutSwallows(p: Parser, a: Bytes, x: byte)
    requires Cuts(p, a)
    ensures Swallows(p, a, x) && !Resumes(p, a, [x])
  {
    hide OnLine;
    var q := p.(mode := ReadSection, respLen := p.respLen + Needed(p), reply := p.reply.(hits := p.reply.hits + 1));
    var none: Bytes := [];
    assert |a + [x]| <= p.valueLen + 2;
    assert Drain(Drain(a, p.valueLen), 2) == none && Drain(Drain(a + [x], p.valueLen), 2) == none;
    Waits(q, none);
    Waits(q, [x]);
    assert none + [x] == [x];
  }

  lemma Waits(q: Parser, buf: Bytes)
    requires q.mode.ReadSection? && |buf| < 2
    ensures Parse(q, buf) == Result(0, q, buf)
  {
    assert FindCrlf(buf) == -1;
  }

  lemma {:induction false} UnsoundFails(p: Parser, a: Bytes, x: byte)
    requires !Sound(p, a)
    ensures Swallows(p, a, x) && !Resumes(p, a, [x])
    decreases |a|, Rank(p.mode)
  {
    hide Step, Cuts;
    StepProgress(p, a);
    if Cuts(p, a) {
      CutSwallows(p, a, x);
    } else {
      StepExtend(p, a, [x]);
      UnsoundFails(Step(p, a).p, Step(p, a).buf, x);
    }
  }

  /** A call can be taken up again after any split if and only if no turn of it cuts a value short. */
  lemma ResumesExactly(p: Parser, a: Bytes)
    ensures (forall b: Bytes :: Resumes(p, a, b)) <==> Sound(p, a)
  {
    hide Resumes, Sound;
    if Sound(p, a) {
      forall b: Bytes ensures Resumes(p, a, b) {
        SoundResumes(p, a, b);
      }
    } else {
      UnsoundFails(p, a, 0);
    }
  }

  // ----- whole streams -----

  /** Where a call stopped for more input, the rest of the call is sound exactly if the whole call is. */
  lemma {:induction false} SoundSplits(p: Parser, a: Bytes, b: Bytes)
    requires Sound(p, a)
    ensures Sound(p, a + b) <==> Parse(p, a).code == 0 ==> Sound(Parse(p, a).p, Parse(p, a).buf + b)
    decreases |a|, Rank(p.mode)
  {
    hide Step;
    StepProgress(p, a);
    var t := Step(p, a);
    if t.More? || t.code != 0 {
      StepExtend(p, a, b);
      NoCutExtend(p, a, b);
    }
    if t.More? {
      SoundSplits(t.p, t.buf, b);
    } else {
      StopsAt(p, a);
    }
  }

  lemma NoCutExtend(p: Parser, a: Bytes, b: Bytes)
    requires !Cuts(p, a) && (Step(p, a).More? || Step(p, a).code != 0)
    ensures !Cuts(p, a + b)
  {
    hide OnLine, Needed;
  }

  lemma {:induction false} VerdictConsumes(p: Parser, buf: Bytes)
    requires Parse(p, buf).code != 0 && !p.mode.ReadEnd?
    ensures |Parse(p, buf).buf| < |buf|
    decreases |buf|, Rank(p.mode)
  {
    hide ValueLength, Needed;
    StepProgress(p, buf);
    var t := Step(p, buf);
    if t.More? && |t.buf| == |buf| {
      VerdictConsumes(t.p, t.buf);
    }
  }

  lemma {:induction false} NeverLeftAtEnd(p: Parser, buf: Bytes)
    requires !p.mode.ReadEnd? || Step(p, buf).Done?
    ensures !Parse(p, buf).p.mode.ReadEnd?
    decreases |buf|, Rank(p.mode)
  {
    hide ValueLength, Needed;
    StepProgress(p, buf);
    var t := Step(p, buf);
    if t.More? {
      NeverLeftAtEnd(t.p, t.buf);
    }
  }

  datatype Event = Replied(reply: Reply) | Rejected

  datatype Session = Session(events: seq<Event>, p: Parser, buf: Bytes)

  /** parse_response called until it asks for more input. */
  function Poll(p: Parser, buf: Bytes): (s: Session)
    requires !p.mode.ReadEnd?
    ensures !s.p.mode.ReadEnd?
    decreases |buf|
  {
    var r := Parse(p, buf);
    NeverLeftAtEnd(p, buf);
    if r.code == 0 then Session([], r.p, r.buf)
    else
      VerdictConsumes(p, buf);
      var s := Poll(r.p, r.buf);
      s.(events := [if r.code == 1 then Replied(r.p.reply) else Rejected] + s.events)
  }

  /** No turn of any call on the stream cuts a value short. */
  predicate SoundStream(p: Parser, buf: Bytes)
    requires !p.mode.ReadEnd?
    decreases |buf|
  {
    var r := Parse(p, buf);
    NeverLeftAtEnd(p, buf);
    Sound(p, buf) && (r.code != 0 ==> (VerdictConsumes(p, buf); SoundStream(r.p, r.buf)))
  }

  /** The bytes arrive in chunks; the client polls after each of them. */
  function PollChunks(p: Parser, buf: Bytes, chunks: seq<Bytes>): Session
    requires !p.mode.ReadEnd?
    decreases |chunks|
  {
    var s := Poll(p, buf);
    if chunks == [] then s
    else
      var t := PollChunks(s.p, s.buf + chunks[0], chunks[1..]);
      t.(events := s.events + t.events)
  }

  /** Polling on a and again when b has arrived is polling on a + b. */
  predicate PollResumes(p: Parser, a: Bytes, b: Bytes)
    requires !p.mode.ReadEnd?
  {
    var s := Poll(p, a);
    var t := Poll(s.p, s.buf + b);
    Poll(p, a + b) == t.(events := s.events + t.events)
  }

  lemma {:induction false} PollExtend(p: Parser, a: Bytes, b: Bytes)
    requires !p.mode.ReadEnd? && SoundStream(p, a)
    ensures PollResumes(p, a, b)
    ensures SoundStream(p, a + b) <==> SoundStream(Poll(p, a).p, Poll(p, a).buf + b)
    decreases |a|
  {
    hide Parse, Sound;
    var r := Parse(p, a);
    NeverLeftAtEnd(p, a);
    SoundResumes(p, a, b);
    SoundSplits(p, a, b);
    if r.code != 0 {
      VerdictConsumes(p, a);
      VerdictConsumes(p, a + b);
      PollExtend(r.p, r.buf, b);
      var s := Poll(r.p, r.buf);
      var t := Poll(s.p, s.buf + b);
      var e := [if r.code == 1 then Replied(r.p.reply) else Rejected];
      assert e + (s.events + t.events) == (e + s.events) + t.events;
    } else {
      NeverLeftAtEnd(r.p, r.buf + b);
      SamePoll(p, a + b, r.p, r.buf + b);
    }
  }

  /** Polls with the same first result go on alike. */
  lemma SamePoll(p: Parser, a: Bytes, q: Parser, b: Bytes)
    requires !p.mode.ReadEnd? && !q.mode.ReadEnd? && Parse(p, a) == Parse(q, b) && (Sound(p, a) <==> Sound(q, b))
    ensures Poll(p, a) == Poll(q, b) && (SoundStream(p, a) <==> SoundStream(q, b))
  {
    hide Parse, Sound;
    NeverLeftAtEnd(p, a);
    if Parse(p, a).code != 0 {
      VerdictConsumes(p, a);
      VerdictConsumes(q, b);
    }
  }

  lemma {:induction false} UnsoundPollFails(p: Parser, a: Bytes, x: byte)
    requires !p.mode.ReadEnd? && !SoundStream(p, a)
    ensures !PollResumes(p, a, [x])
    decreases |a|
  {
    hide Parse, Sound;
    var r := Parse(p, a);
    NeverLeftAtEnd(p, a);
    if !Sound(p, a) {
      UnsoundFails(p, a, x);
      assert r.buf + [x] == [x];
    } else {
      SoundResumes(p, a, [x]);
      VerdictConsumes(p, a);
      VerdictConsumes(p, a + [x]);
      UnsoundPollFails(r.p, r.buf, x);
      var s := Poll(r.p, r.buf);
      var t := Poll(s.p, s.buf + [x]);
      var e := [if r.code == 1 then Replied(r.p.reply) else Rejected];
      SameTail(e, s.events, t.events, Poll(r.p, r.buf + [x]).events);
    }
  }

  lemma SameTail(e: seq<Event>, a: seq<Event>, b: seq<Event>, c: seq<Event>)
    ensures e + c == e + a + b <==> c == a + b
  {
    assert e + (a + b) == e + a + b;
    assert c == (e + c)[|e|..] && a + b == (e + (a + b))[|e|..];
  }

  /** Neither the bytes of the first poll nor those up to the end of any chunk but the last cut a value short. */
  predicate SoundAtCuts(p: Parser, buf: Bytes, chunks: seq<Bytes>)
    requires !p.mode.ReadEnd?
  {
    forall k :: 0 <= k < |chunks| ==> SoundStream(p, buf + RespResume.Concat(chunks[..k]))
  }

  /** A cut of a stream into chunks that cuts no value short yields the same replies, the same rejections, the same
      parser state and the same bytes left over as receiving it at once. */
  lemma {:induction false} ChunkingIsInvisible(p: Parser, buf: Bytes, chunks: seq<Bytes>)
    requires !p.mode.ReadEnd? && SoundAtCuts(p, buf, chunks)
    ensures PollChunks(p, buf, chunks) == Poll(p, buf + RespResume.Concat(chunks))
    decreases |chunks|
  {
    hide Poll, SoundStream;
    if chunks == [] {
      assert buf + RespResume.Concat(chunks) == buf;
    } else {
      var s := Poll(p, buf);
      NoChunks(chunks);
      assert buf + RespResume.Concat(chunks[..0]) == buf;
      PollExtend(p, buf, RespResume.Concat(chunks));
      assert (s.buf + chunks[0]) + RespResume.Concat(chunks[1..]) == s.buf + RespResume.Concat(chunks);
      forall k | 0 <= k < |chunks[1..]|
        ensures SoundStream(s.p, s.buf + chunks[0] + RespResume.Concat(chunks[1..][..k]))
      {
        LaterCut(p, buf, chunks, k);
      }
      ChunkingIsInvisible(s.p, s.buf + chunks[0], chunks[1..]);
    }
  }

  lemma NoChunks(chunks: seq<Bytes>)
    ensures RespResume.Concat(chunks[..0]) == []
  {
  }

  lemma LaterCut(p: Parser, buf: Bytes, chunks: seq<Bytes>, k: nat)
    requires !p.mode.ReadEnd? && SoundStream(p, buf) && k + 1 < |chunks|
    requires SoundStream(p, buf + RespResume.Concat(chunks[..k + 1]))
    ensures SoundStream(Poll(p, buf).p, Poll(p, buf).buf + chunks[0] + RespResume.Concat(chunks[1..][..k]))
  {
    hide Poll, SoundStream;
    var more := RespResume.Concat(chunks[1..][..k]);
    assert chunks[..k + 1][1..] == chunks[1..][..k];
    assert RespResume.Concat(chunks[..k + 1]) == chunks[0] + more;
    PollExtend(p, buf, chunks[0] + more);
    assert Poll(p, buf).buf + (chunks[0] + more) == Poll(p, buf).buf + chunks[0] + more;
  }

  /** No beginning of the stream cuts a value short. */
  predicate NeverCuts(p: Parser, stream: Bytes)
    requires !p.mode.ReadEnd?
  {
    forall n :: 0 <= n <= |stream| ==> SoundStream(p, stream[..n])
  }

  /** However a beginning of the stream was cut, and whatever comes next, the cuts do not show. */
  ghost predicate CutsInvisible(p: Parser, stream: Bytes)
    requires !p.mode.ReadEnd?
  {
    forall buf: Bytes, chunks: seq<Bytes>, next: Bytes {:trigger PollChunks(p, buf, chunks + [next])} ::
      buf + RespResume.Concat(chunks) <= stream ==>
        PollChunks(p, buf, chunks + [next]) == Poll(p, buf + RespResume.Concat(chunks) + next)
  }

  /** The cuts of a stream into chunks are invisible if and only if no beginning of it cuts a value short. */
  lemma ChunkingExactly(p: Parser, stream: Bytes)
    requires !p.mode.ReadEnd?
    ensures CutsInvisible(p, stream) <==> NeverCuts(p, stream)
  {
    hide Poll, PollChunks, SoundStream;
    if NeverCuts(p, stream) {
      forall buf: Bytes, chunks: seq<Bytes>, next: Bytes | buf + RespResume.Concat(chunks) <= stream
        ensures PollChunks(p, buf, chunks + [next]) == Poll(p, buf + RespResume.Concat(chunks) + next)
      {
        BeginningsSound(p, buf, chunks, next, stream);
        ChunkingIsInvisible(p, buf, chunks + [next]);
        ConcatSnoc(chunks, next);
        assert buf + (RespResume.Concat(chunks) + next) == buf + RespResume.Concat(chunks) + next;
      }
    } else {
      var n :| 0 <= n <= |stream| && !SoundStream(p, stream[..n]);
      CutShows(p, stream[..n], 0);
      var none: seq<Bytes> := [];
      assert stream[..n] + RespResume.Concat(none) == stream[..n];
    }
  }

  /** The cut behind a and the byte x. */
  lemma CutShows(p: Parser, a: Bytes, x: byte)
    requires !p.mode.ReadEnd? && !SoundStream(p, a)
    ensures var none: seq<Bytes> := []; PollChunks(p, a, none + [[x]]) != Poll(p, a + RespResume.Concat(none) + [x])
  {
    UnsoundPollFails(p, a, x);
    hide Poll, SoundStream;
    var none: seq<Bytes> := [];
    var s, one := Poll(p, a), [[x]];
    assert none + one == one && one[1..] == none && a + RespResume.Concat(none) == a;
    assert PollChunks(s.p, s.buf + [x], none) == Poll(s.p, s.buf + [x]);
  }

  lemma {:induction false} ConcatSnoc(chunks: seq<Bytes>, next: Bytes)
    ensures RespResume.Concat(chunks + [next]) == RespResume.Concat(chunks) + next
    decreases |chunks|
  {
    if chunks == [] {
      var none: seq<Bytes> := [];
      assert chunks + [next] == [next] && [next][1..] == none;
    } else {
      assert (chunks + [next])[1..] == chunks[1..] + [next];
      ConcatSnoc(chunks[1..], next);
    }
  }

  lemma BeginningsSound(p: Parser, buf: Bytes, chunks: seq<Bytes>, next: Bytes, stream: Bytes)
    requires !p.mode.ReadEnd? && NeverCuts(p, stream) && buf + RespResume.Concat(chunks) <= stream
    ensures SoundAtCuts(p, buf, chunks + [next])
  {
    hide SoundStream;
    var all := chunks + [next];
    forall k | 0 <= k < |all| ensures SoundStream(p, buf + RespResume.Concat(all[..k])) {
      assert all[..k] == chunks[..k];
      ConcatPrefix(chunks, k);
      var a := buf + RespResume.Concat(chunks[..k]);
      assert a <= stream;
      assert stream[..|a|] == a;
    }
  }

  lemma {:induction false} ConcatPrefix(chunks: seq<Bytes>, k: nat)
    requires k <= |chunks|
    ensures RespResume.Concat(chunks[..k]) <= RespResume.Concat(chunks)
    decreases |chunks|
  {
    if k > 0 {
      assert chunks[..k][1..] == chunks[1..][..k - 1];
      ConcatPrefix(chunks[1..], k - 1);
    }
  }

  // ----- announced lengths -----

  /** Every value announced during the call is shorter than 2^32 - 2 bytes. */
  predicate Short(p: Parser, buf: Bytes)
    decreases |buf|, Rank(p.mode)
  {
    StepProgress(p, buf);
    && (p.mode.ReadValue? ==> p.valueLen + 2 < TWO_32)
    && (Step(p, buf).More? ==> Short(Step(p, buf).p, Step(p, buf).buf))
  }

  /** Every value announced on the stream is shorter than 2^32 - 2 bytes. */
  predicate ShortStream(p: Parser, buf: Bytes)
    requires !p.mode.ReadEnd?
    decreases |buf|
  {
    var r := Parse(p, buf);
    NeverLeftAtEnd(p, buf);
    Short(p, buf) && (r.code != 0 ==> (VerdictConsumes(p, buf); ShortStream(r.p, r.buf)))
  }

  /** What is short with more bytes is short and sound without them. */
  lemma {:induction false} ShortIsSound(p: Parser, a: Bytes, b: Bytes)
    requires Short(p, a + b)
    ensures Sound(p, a)
    decreases |a|, Rank(p.mode)
  {
    hide Step;
    StepProgress(p, a);
    var t := Step(p, a);
    assert !Cuts(p, a);
    if t.More? {
      StepExtend(p, a, b);
      ShortIsSound(t.p, t.buf, b);
    }
  }

  lemma {:induction false} ShortStreamIsSound(p: Parser, a: Bytes, b: Bytes)
    requires !p.mode.ReadEnd? && ShortStream(p, a + b)
    ensures SoundStream(p, a)
    decreases |a|
  {
    hide Parse, Short, Sound;
    var r := Parse(p, a);
    NeverLeftAtEnd(p, a);
    ShortIsSound(p, a, b);
    if r.code != 0 {
      SoundResumes(p, a, b);
      VerdictConsumes(p, a);
      VerdictConsumes(p, a + b);
      ShortStreamIsSound(r.p, r.buf, b);
    }
  }

  /** Announced lengths below 2^32 - 2 are enough. */
  lemma ShortNeverCuts(p: Parser, stream: Bytes)
    requires !p.mode.ReadEnd? && ShortStream(p, stream)
    ensures NeverCuts(p, stream)
  {
    hide ShortStream, SoundStream;
    forall n | 0 <= n <= |stream| ensures SoundStream(p, stream[..n]) {
      assert stream[..n] + stream[n..] == stream;
      ShortStreamIsSound(p, stream[..n], stream[n..]);
    }
  }
}
