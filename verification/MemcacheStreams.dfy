/** Memcache text replies on a stream: which lines are accepted, the reply to a SET, and mixed replies in any chunks. */
module MemcacheStreams {
  import opened ByteStrings
  import opened MemcacheReplies
  import opened MemcacheText
  import opened Scanf
  import RespResume

  // ----- the fields of a VALUE line -----

  predicate Word(w: Bytes) {
    w != [] && forall k :: 0 <= k < |w| ==> !IsSpace(w[k])
  }

  predicate AllDigits(d: Bytes) {
    d != [] && forall k :: 0 <= k < |d| ==> IsDigit(d[k])
  }

  /** A number as "%u" takes it: blanks, possibly a sign, digits. */
  datatype Numeral = Numeral(gap: Bytes, sign: Bytes, digits: Bytes)

  predicate ValidNumeral(n: Numeral) {
    Blanks(n.gap) && (n.sign == [] || n.sign == [MINUS] || n.sign == [PLUS]) && AllDigits(n.digits)
  }

  function NumeralText(n: Numeral): Bytes {
    n.gap + (n.sign + n.digits)
  }

  function NumeralValue(n: Numeral): nat {
    UintOf(n.digits, n.sign == [MINUS])
  }

  /** There is no number behind the blanks. */
  predicate NoNumeral(s: Bytes) {
    var t := SkipSpace(s);
    t == [] || (!IsDigit(t[0]) && (t[0] == MINUS || t[0] == PLUS ==> |t| == 1 || !IsDigit(t[1])))
  }

  lemma NumeralScans(n: Numeral, post: Bytes)
    requires ValidNumeral(n) && (post == [] || !IsDigit(post[0]))
    ensures ScanUint(NumeralText(n) + post) == Number(NumeralValue(n), post)
  {
    hide UintOf, ScanDigits, Digits, SkipSpace;
    var t := n.sign + (n.digits + post);
    assert NumeralText(n) + post == n.gap + t;
    assert t[0] == if n.sign == [] then n.digits[0] else n.sign[0];
    BlanksSkipped(n.gap, t);
    SignedDigits(n.digits, post, n.sign == [MINUS]);
    assert t[|n.sign|..] == n.digits + post;
    if n.sign == [] {
      assert t == n.digits + post;
    }
  }

  lemma SignedDigits(d: Bytes, post: Bytes, minus: bool)
    requires AllDigits(d) && (post == [] || !IsDigit(post[0]))
    ensures ScanDigits(d + post, minus) == Number(UintOf(d, minus), post)
  {
    hide UintOf, Digits;
    DigitsOf(d, post);
    assert (d + post)[|d|..] == post;
  }

  lemma NoNumeralScans(s: Bytes)
    requires NoNumeral(s)
    ensures ScanUint(s) == NoNumber
  {
    hide SkipSpace;
  }

  /** The second of two numbers. */
  function SecondNumber(s: Bytes): Option<nat> {
    match ScanUint(s)
    case NoNumber => None
    case Number(_, t) => match ScanUint(t) case NoNumber => None case Number(v, _) => Some(v)
  }

  /** Behind two words the length is the second number. */
  lemma AfterWords(w: Bytes, g: Bytes, key: Bytes, rest: Bytes)
    requires Word(w) && Blanks(g) && g != [] && Word(key) && (rest == [] || IsSpace(rest[0]))
    requires NUL !in w + (g + (key + rest))
    ensures ValueLength(w + (g + (key + rest))) == SecondNumber(rest)
  {
    var line, tail := w + (g + (key + rest)), key + rest;
    CStringWhole(line);
    hide SkipWord, SkipSpace, ScanUint, CString;
    assert line[0] == w[0] && (g + tail)[0] == g[0] && tail[0] == key[0];
    NoSkip(line);
    SkipWordStops(w, g + tail);
    BlanksSkipped(g, tail);
    SkipWordStops(key, rest);
  }

  /** A VALUE line with its four fields, whatever blanks stand between them and whatever follows, announces the
      fourth. */
  lemma FourFields(w: Bytes, g: Bytes, key: Bytes, flags: Numeral, size: Numeral, tail: Bytes)
    requires Word(w) && Blanks(g) && g != [] && Word(key)
    requires ValidNumeral(flags) && flags.gap != [] && ValidNumeral(size) && (size.gap != [] || size.sign != [])
    requires tail == [] || !IsDigit(tail[0])
    requires NUL !in w + (g + (key + (NumeralText(flags) + (NumeralText(size) + tail))))
    ensures ValueLength(w + (g + (key + (NumeralText(flags) + (NumeralText(size) + tail))))) == Some(NumeralValue(size))
  {
    var rest := NumeralText(flags) + (NumeralText(size) + tail);
    assert rest[0] == flags.gap[0];
    assert !IsDigit((NumeralText(size) + tail)[0]) by { NumeralStarts(size, tail); }
    hide ValueLength, ScanUint, NumeralText, NumeralValue;
    AfterWords(w, g, key, rest);
    NumeralScans(flags, NumeralText(size) + tail);
    NumeralScans(size, tail);
  }

  lemma NumeralStarts(n: Numeral, tail: Bytes)
    requires ValidNumeral(n) && (n.gap != [] || n.sign != [])
    ensures NumeralText(n) + tail != [] && !IsDigit((NumeralText(n) + tail)[0])
  {
    if n.gap != [] {
      assert (NumeralText(n) + tail)[0] == n.gap[0];
    } else {
      assert (NumeralText(n) + tail)[0] == n.sign[0];
    }
  }

  /** One with fewer fields announces nothing: no key, no flags, or no size. */
  lemma MissingKey(w: Bytes, g: Bytes)
    requires Word(w) && Blanks(g) && NUL !in w + g
    ensures ValueLength(w + g) == None
  {
    CStringWhole(w + g);
    hide SkipWord, SkipSpace, ScanUint, CString;
    assert (w + g)[0] == w[0];
    NoSkip(w + g);
    SkipWordStops(w, g);
    BlanksSkipped(g, []);
    assert g + [] == g;
  }

  lemma MissingFlags(w: Bytes, g: Bytes, key: Bytes, rest: Bytes)
    requires Word(w) && Blanks(g) && g != [] && Word(key) && (rest == [] || IsSpace(rest[0])) && NoNumeral(rest)
    requires NUL !in w + (g + (key + rest))
    ensures ValueLength(w + (g + (key + rest))) == None
  {
    hide ValueLength, ScanUint;
    AfterWords(w, g, key, rest);
    NoNumeralScans(rest);
  }

  lemma MissingSize(w: Bytes, g: Bytes, key: Bytes, flags: Numeral, rest: Bytes)
    requires Word(w) && Blanks(g) && g != [] && Word(key) && ValidNumeral(flags) && flags.gap != []
    requires NoNumeral(rest)
    requires NUL !in w + (g + (key + (NumeralText(flags) + rest)))
    ensures ValueLength(w + (g + (key + (NumeralText(flags) + rest)))) == None
  {
    var tail := NumeralText(flags) + rest;
    assert tail[0] == flags.gap[0];
    NoDigitAhead(rest);
    hide ValueLength, ScanUint, NumeralText, NumeralValue, NoNumeral;
    AfterWords(w, g, key, tail);
    NumeralScans(flags, rest);
    NoNumeralScans(rest);
  }

  lemma NoDigitAhead(s: Bytes)
    requires NoNumeral(s)
    ensures s == [] || !IsDigit(s[0])
  {
  }

  // ----- lines that are refused -----

  predicate Refused(line: Bytes) {
    if VALUE <= line then ValueLength(line).None? else !(END <= line) && !(STORED <= line)
  }

  /** A line is refused exactly if it starts with none of the three words, or is a VALUE line that announces nothing;
      only the former is reported as an error. */
  lemma RefusedExactly(p: Parser, line: Bytes, buf: Bytes)
    ensures var t := OnLine(p, line, buf);
            && (t.Done? <==> Refused(line)) && t.buf == buf
            && (t.Done? ==> t.code == -1)
            && t.p.reply.error == (p.reply.error || (Refused(line) && !(VALUE <= line)))
            && t.p.reply.status == StatusAfter(p, line) && t.p.reply.totalLen == U32(p.respLen + |line| + 2)
            && t.p.reply.hits == p.reply.hits
  {
    hide ValueLength, U32;
  }

  /** Such a line ends the call with -1; it is taken, and what follows is left. */
  lemma RefusedLineParses(p: Parser, line: Bytes, rest: Bytes)
    requires p.mode.ReadSection? && NoCrlf(line) && Refused(line)
    ensures var r := Parse(p, line + CRLF + rest);
            && r.code == -1 && r.buf == rest && r.p.mode == ReadSection
            && r.p.reply.error == (p.reply.error || !(VALUE <= line)) && r.p.reply.status == StatusAfter(p, line)
  {
    RefusedMode(p, line, rest);
    hide Parse, OnLine, Refused, U32;
    LineStep(p, line, rest);
    RefusedExactly(p, line, rest);
    ParseDone(p, line + CRLF + rest);
  }

  lemma RefusedMode(p: Parser, line: Bytes, buf: Bytes)
    requires Refused(line)
    ensures OnLine(p, line, buf).p.mode == p.mode
  {
    hide ValueLength, U32;
  }

  // ----- answers -----

  /** What the server answers to a SET, and to a GET. */
  datatype Answer = Stored | Retrieved(items: seq<Item>)

  predicate SendableAnswer(a: Answer) {
    a.Retrieved? ==> forall k :: 0 <= k < |a.items| ==> Sendable(a.items[k])
  }

  function AnswerText(a: Answer): Bytes {
    match a
    case Stored => STORED + CRLF
    case Retrieved(items) => Wire(items)
  }

  predicate Matches(r: Reply, a: Answer) {
    && !r.error && r.totalLen == U32(|AnswerText(a)|)
    && match a
       case Stored => r.hits == 0 && r.status == Some(STORED)
       case Retrieved(items) => r.hits == |items| && r.status == Some(FirstLine(items))
  }

  /** STORED is a complete reply of eight bytes without hits. */
  lemma StoredParses(p: Parser, rest: Bytes)
    requires p.mode.Initial?
    ensures var r := Parse(p, STORED + CRLF + rest);
            && r.code == 1 && r.buf == rest && r.p.mode == Initial
            && r.p.reply.hits == 0 && !r.p.reply.error && r.p.reply.totalLen == 8 && r.p.reply.status == Some(STORED)
  {
    assert NoCrlf(STORED) && |STORED + CRLF| == 8;
    assert VALUE[0] == 'V' as int && STORED[0] == 'S' as int;
    FirstStep(p, STORED + CRLF + rest);
    hide Parse;
    ParseStep(p, STORED + CRLF + rest);
    LastLineParses(p.(mode := ReadSection, respLen := 0, reply := CLEAR), STORED, rest);
  }

  lemma AnswerParses(p: Parser, a: Answer, rest: Bytes)
    requires p.mode.Initial? && SendableAnswer(a)
    ensures var r := Parse(p, AnswerText(a) + rest);
            r.code == 1 && r.buf == rest && r.p.mode == Initial && Matches(r.p.reply, a)
  {
    hide Parse, Wire, FirstLine, Sendable;
    match a
    case Stored => StoredParses(p, rest);
    case Retrieved(items) => ReplyParses(p, items, rest);
  }

  function StreamText(answers: seq<Answer>): Bytes {
    if answers == [] then [] else AnswerText(answers[0]) + StreamText(answers[1..])
  }

  lemma PollOne(p: Parser, a: Answer, rest: Bytes) returns (q: Parser)
    requires p.mode.Initial? && SendableAnswer(a)
    ensures q.mode.Initial? && Matches(q.reply, a)
    ensures var s := Poll(p, AnswerText(a) + rest); var t := Poll(q, rest);
            s.events == [Replied(q.reply)] + t.events && s.buf == t.buf && s.p == t.p
  {
    AnswerParses(p, a, rest);
    q := Parse(p, AnswerText(a) + rest).p;
    hide Parse, AnswerText, Matches;
  }

  /** A stream of answers to SETs and GETs in any order: one matching reply for each, in order, nothing is left. */
  lemma {:induction false} StreamParses(p: Parser, answers: seq<Answer>)
    requires p.mode.Initial? && forall k :: 0 <= k < |answers| ==> SendableAnswer(answers[k])
    ensures var s := Poll(p, StreamText(answers));
            && s.buf == [] && |s.events| == |answers|
            && forall k :: 0 <= k < |answers| ==> s.events[k].Replied? && Matches(s.events[k].reply, answers[k])
    decreases |answers|
  {
    if answers == [] {
      PollNothing(p);
    } else {
      var more := answers[1..];
      hide Poll, AnswerText, Matches, SendableAnswer;
      assert StreamText(answers) == AnswerText(answers[0]) + StreamText(more);
      hide StreamText;
      var q := PollOne(p, answers[0], StreamText(more));
      StreamParses(q, more);
      var s, t := Poll(p, StreamText(answers)), Poll(q, StreamText(more));
      forall k | 0 <= k < |answers| ensures s.events[k].Replied? && Matches(s.events[k].reply, answers[k]) {
        assert k > 0 ==> s.events[k] == t.events[k - 1] && answers[k] == more[k - 1];
      }
    }
  }

  lemma PollNothing(p: Parser)
    requires p.mode.Initial?
    ensures Poll(p, []).events == [] && Poll(p, []).buf == []
  {
    var none: Bytes := [];
    var q := p.(mode := ReadSection, respLen := 0, reply := CLEAR);
    FirstStep(p, none);
    ParseStep(p, none);
    Waits(q, none);
  }

  // ----- in chunks -----

  lemma ShortStep(p: Parser, buf: Bytes)
    requires (p.mode.ReadValue? ==> p.valueLen + 2 < TWO_32)
    requires Step(p, buf).More? ==> Short(Step(p, buf).p, Step(p, buf).buf)
    ensures Short(p, buf)
  {
    hide Step;
    StepProgress(p, buf);
  }

  lemma ShortLastLine(p: Parser, line: Bytes, rest: Bytes)
    requires p.mode.ReadSection? && NoCrlf(line) && !(VALUE <= line) && (END <= line || STORED <= line)
    ensures Short(p, line + CRLF + rest)
  {
    hide U32, ValueLength;
    var buf := line + CRLF + rest;
    LineStep(p, line, rest);
    ShortStep(Step(p, buf).p, rest);
    ShortStep(p, buf);
  }

  lemma DataStep(q: Parser, data: Bytes, rest: Bytes)
    requires q.mode.ReadValue? && q.valueLen == |data| && |data| + 2 < TWO_32
    ensures Step(q, data + CRLF + rest)
         == More(q.(mode := ReadSection, respLen := q.respLen + |data| + 2,
                    reply := q.reply.(hits := q.reply.hits + 1)), rest)
  {
    hide U32;
    assert Drain(data + CRLF + rest, |data|) == CRLF + rest;
    assert Drain(CRLF + rest, 2) == rest;
  }

  lemma SectionIs(p: Parser, i: Item)
    ensures var q := Awaiting(p, i);
            && q.mode.ReadValue? && q.valueLen == |i.data|
            && AfterSection(p, i) == q.(mode := ReadSection, respLen := q.respLen + |i.data| + 2,
                                        reply := q.reply.(hits := q.reply.hits + 1))
  {
    hide U32, ValueLine;
  }

  lemma ShortSection(p: Parser, i: Item, rest: Bytes)
    requires p.mode.ReadSection? && Sendable(i) && Short(AfterSection(p, i), rest)
    ensures Short(p, Section(i) + rest)
  {
    hide Step, Short, Announcement, U32, Told, AfterSection, ValidKey;
    var tail, q := i.data + CRLF + rest, Awaiting(p, i);
    SectionIs(p, i);
    DataStep(q, i.data, rest);
    ShortStep(q, tail);
    AnnouncementStep(p, i.key, i.flags, |i.data|, tail);
    ShortStep(p, ValueLine(i) + CRLF + tail);
    assert Section(i) + rest == ValueLine(i) + CRLF + tail;
  }

  lemma {:induction false} ShortSections(p: Parser, items: seq<Item>, rest: Bytes)
    requires p.mode.ReadSection? && forall k :: 0 <= k < |items| ==> Sendable(items[k])
    ensures Short(p, Wire(items) + rest)
    decreases |items|
  {
    if items == [] {
      assert NoCrlf(END) && VALUE[0] == 'V' as int && END[0] == 'E' as int;
      ShortLastLine(p, END, rest);
    } else {
      hide Short, Section, Sendable, Awaiting;
      ShortSections(AfterSection(p, items[0]), items[1..], rest);
      ShortSection(p, items[0], Wire(items[1..]) + rest);
      assert Wire(items) + rest == Section(items[0]) + (Wire(items[1..]) + rest);
    }
  }

  lemma ShortAnswer(p: Parser, a: Answer, rest: Bytes)
    requires p.mode.Initial? && SendableAnswer(a)
    ensures Short(p, AnswerText(a) + rest)
  {
    var q := p.(mode := ReadSection, respLen := 0, reply := CLEAR);
    FirstStep(p, AnswerText(a) + rest);
    match a {
      case Stored =>
        assert NoCrlf(STORED) && VALUE[0] == 'V' as int && STORED[0] == 'S' as int;
        ShortLastLine(q, STORED, rest);
      case Retrieved(items) => ShortSections(q, items, rest);
    }
    hide Step, Short;
    ShortStep(p, AnswerText(a) + rest);
  }

  lemma {:induction false} ShortAnswers(p: Parser, answers: seq<Answer>)
    requires p.mode.Initial? && forall k :: 0 <= k < |answers| ==> SendableAnswer(answers[k])
    ensures ShortStream(p, StreamText(answers))
    decreases |answers|
  {
    if answers == [] {
      var none: Bytes := [];
      var q := p.(mode := ReadSection, respLen := 0, reply := CLEAR);
      FirstStep(p, none);
      ShortStep(q, none);
      ShortStep(p, none);
      ParseStep(p, none);
      Waits(q, none);
    } else {
      var rest := StreamText(answers[1..]);
      hide Parse, Short, AnswerText, SendableAnswer, Matches;
      ShortAnswer(p, answers[0], rest);
      AnswerParses(p, answers[0], rest);
      ShortAnswers(Parse(p, AnswerText(answers[0]) + rest).p, answers[1..]);
    }
  }

  /** The same for the stream cut into chunks in any way. */
  lemma ChunkedStreamParses(p: Parser, answers: seq<Answer>, chunks: seq<Bytes>)
    requires p.mode.Initial? && forall k :: 0 <= k < |answers| ==> SendableAnswer(answers[k])
    requires RespResume.Concat(chunks) == StreamText(answers)
    ensures var s := PollChunks(p, [], chunks);
            && s.buf == [] && |s.events| == |answers|
            && forall k :: 0 <= k < |answers| ==> s.events[k].Replied? && Matches(s.events[k].reply, answers[k])
  {
    hide Poll, PollChunks, ShortStream, SoundStream, Matches, AnswerText, SendableAnswer, StreamText;
    var stream := StreamText(answers);
    ShortAnswers(p, answers);
    ShortNeverCuts(p, stream);
    if chunks != [] {
      var n := |chunks| - 1;
      assert chunks[..n] + [chunks[n]] == chunks;
      ConcatSnoc(chunks[..n], chunks[n]);
      BeginningsSound(p, [], chunks[..n], chunks[n], stream);
    }
    ChunkingIsInvisible(p, [], chunks);
    assert [] + RespResume.Concat(chunks) == stream;
    StreamParses(p, answers);
  }
}
