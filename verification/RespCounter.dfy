/** The bare counter m_total_bulks_count against the kept tree. */
module RespCounter {
  import opened ByteStrings
  import opened RespParser
  import opened RespNested
  import opened RespResume

  // ----- the counter machine is the tree machine without the tree -----

  /** The same parser with keep-value off. */
  function Erase(p: Parser): Parser {
    p.(keep := false, frames := [], reply := EraseReply(p.reply))
  }

  function EraseReply(r: Reply): Reply {
    r.(tree := None, value := [])
  }

  function EraseTurn(t: Turn): Turn {
    match t
    case More(q) => More(Erase(q))
    case Done(code, q) => Done(code, Erase(q))
  }

  lemma EraseFinish(p: Parser)
    ensures Finish(Erase(p)) == EraseTurn(Finish(p))
  {
  }

  lemma EraseArray(p: Parser, line: Bytes, count: nat)
    ensures AfterArray(Erase(p), line, count) == Erase(AfterArray(p, line, count))
  {
  }

  lemma EraseSimple(p: Parser, line: Bytes)
    requires line != []
    ensures AfterSimple(Erase(p), line) == Erase(AfterSimple(p, line))
  {
  }

  lemma EraseLine(p: Parser, line: Bytes)
    ensures OnLine(Erase(p), line) == EraseTurn(OnLine(p, line))
  {
    hide AfterArray, AfterSimple, ArrayCount, HeaderNumber, Finish, CString;
    var q := p.(respLen := p.respLen + |line| + 2);
    var head := LineHead(line);
    if head == STAR {
      var count := ArrayCount(line);
      EraseArray(q, line, count);
      EraseFinish(AfterArray(q, line, count));
    } else if head != NUL && head != DOLLAR {
      EraseSimple(q, line);
      EraseFinish(AfterSimple(q, line));
    }
  }

  lemma EraseBulkEnd(p: Parser, data: Bytes)
    ensures OnBulkEnd(Erase(p), data) == EraseTurn(OnBulkEnd(p, data))
  {
  }

  lemma EraseStep(p: Parser, buf: Bytes)
    requires Ready(p, buf)
    ensures Ready(Erase(p), buf)
    ensures Step(Erase(p), buf) == Outcome(EraseTurn(Step(p, buf).turn), Step(p, buf).buf)
  {
    match p.mode
    case Initial =>
    case ReadBulk =>
    case ReadLine =>
      var i := FindCrlf(buf);
      if i >= 0 {
        EraseLine(p, buf[..i]);
      }
    case EndBulk =>
      EraseBulkEnd(p, if p.bulkLen < 0 then [] else buf[..p.bulkLen]);
  }

  /** Keeping values changes no verdict, no length, no hit count and no byte consumed. */
  lemma {:induction false} EraseParse(p: Parser, buf: Bytes)
    requires Ready(p, buf)
    ensures Ready(Erase(p), buf)
    ensures var r := Parse(p, buf);
            Parse(Erase(p), buf) == Result(r.code, Erase(r.p), r.buf)
    decreases |buf|, Rank(p.mode)
  {
    StepProgress(p, buf);
    EraseStep(p, buf);
    var o := Step(p, buf);
    if o.turn.More? {
      EraseParse(o.turn.p, o.buf);
    }
  }

  // ----- the counter is the sum of what the open arrays still await -----

  function Sum(frames: seq<Frame>): int {
    if frames == [] then 0 else frames[0].left + Sum(frames[1..])
  }

  predicate NonNegative(frames: seq<Frame>) {
    forall i :: 0 <= i < |frames| ==> frames[i].left >= 0
  }

  /** Every open array awaits something or is waited on; the current one awaits something. */
  predicate Chain(frames: seq<Frame>) {
    NonNegative(frames) && (frames != [] ==> frames[0].left > 0)
  }

  /** How far the sum along the chain is ahead of the counter. */
  function Lag(p: Parser): int {
    if p.frames == [] then 0 else if p.mode.Initial? then Sum(p.frames) else Sum(p.frames) - p.total
  }

  /** The counter and the chain in any reachable state, overflow included: while an array is open the counter is
      positive and never ahead of the chain. */
  predicate Consistent(p: Parser) {
    && Chain(p.frames)
    && p.total < TWO_32
    && match p.mode
       case Initial => true
       case ReadLine => if p.frames == [] then p.total == 0 else 0 < p.total <= Sum(p.frames)
       case _ => if p.frames == [] then p.total == 1 else 0 < p.total <= Sum(p.frames)
  }

  /** The counter agrees with the chain. */
  predicate Agrees(p: Parser) {
    Consistent(p) && Lag(p) == 0
  }

  lemma {:induction false} SumSplit(a: seq<Frame>, b: seq<Frame>)
    ensures Sum(a + b) == Sum(a) + Sum(b)
  {
    if a == [] {
      assert a + b == b;
    } else {
      assert (a + b)[1..] == a[1..] + b;
      SumSplit(a[1..], b);
    }
  }

  lemma {:induction false} SumPositive(frames: seq<Frame>)
    requires NonNegative(frames)
    ensures Sum(frames) >= 0
    ensures Chain(frames) && frames != [] ==> Sum(frames) > 0
  {
    if frames != [] {
      assert NonNegative(frames[1..]);
      SumPositive(frames[1..]);
    }
  }

  /** get_next_mbulk leaves only finished arrays: the sum stays, and nothing is open iff it is 0. */
  lemma {:induction false} SettleKeepsSum(frames: seq<Frame>, tree: Option<Tree>)
    requires NonNegative(frames)
    ensures var (fs, t) := Settle(frames, tree);
            Chain(fs) && Sum(fs) == Sum(frames) && (fs == [] && frames != [] ==> t.Some?)
    decreases |frames|
  {
    if frames != [] && frames[0].left == 0 && |frames| > 1 {
      var parent := frames[1].(items := frames[1].items + [Branch(frames[0].items)]);
      var up := [parent] + frames[2..];
      assert up[1..] == frames[1..][1..];
      SettleKeepsSum(up, tree);
    }
  }

  lemma AddKeepsSum(frames: seq<Frame>, tree: Option<Tree>, t: Tree)
    requires Chain(frames) && frames != []
    ensures var (fs, _) := AddElement(frames, tree, t); Chain(fs) && Sum(fs) == Sum(frames) - 1
  {
    var fs := [Frame(frames[0].left - 1, frames[0].items + [t])] + frames[1..];
    assert fs[1..] == frames[1..];
    SettleKeepsSum(fs, tree);
  }

  lemma OpenKeepsSum(frames: seq<Frame>, tree: Option<Tree>, count: nat)
    requires Chain(frames)
    ensures var (fs, _) := OpenArray(frames, tree, count);
            Chain(fs) && Sum(fs) == (if frames == [] then 0 else Sum(frames) - 1) + count
  {
    if frames == [] {
      var fs := [Frame(count, [])];
      assert fs[1..] == [];
      SettleKeepsSum(fs, tree);
    } else {
      var parent := frames[0].(left := frames[0].left - 1);
      var fs := [Frame(count, []), parent] + frames[1..];
      assert fs[1..] == [parent] + frames[1..] && fs[1..][1..] == frames[1..];
      SettleKeepsSum(fs, tree);
    }
  }

  /** The 32-bit counter cannot hold what a '*' line announces on top of what is outstanding. */
  predicate LineOverflows(p: Parser, line: Bytes) {
    LineHead(line) == STAR && (if p.total > 0 then p.total - 1 else 0) + ArrayCount(line) >= TWO_32
  }

  /** The next turn reads such a line. */
  predicate Overflows(p: Parser, buf: Bytes) {
    p.mode.ReadLine? && FindCrlf(buf) >= 0 && LineOverflows(p, buf[..FindCrlf(buf)])
  }

  /** The state in which a turn finds the parser: a reply does not start inside an array. */
  predicate Startable(p: Parser) {
    p.keep && Consistent(p) && (p.mode.Initial? ==> p.frames == [])
  }

  /** A turn keeps the counter consistent, and the chain gets ahead of it by 2^32 exactly on overflow. */
  predicate Follows(p: Parser, q: Parser, overflow: bool) {
    Consistent(q) && Lag(q) == Lag(p) + if overflow then TWO_32 else 0
  }

  lemma ArrayFollows(p: Parser, line: Bytes, count: nat)
    requires p.keep && p.mode.ReadLine? && Consistent(p) && count < TWO_31
    ensures Follows(p, Finish(AfterArray(p, line, count)).p, (if p.total > 0 then p.total - 1 else 0) + count >= TWO_32)
  {
    hide Sum, OpenArray;
    OpenKeepsSum(p.frames, p.reply.tree, count);
    SumPositive(p.frames);
    SumNone(p.frames);
    var q := AfterArray(p, line, count);
    SumPositive(q.frames);
    SumNone(q.frames);
    WrapOnce((if p.total > 0 then p.total - 1 else 0) + count);
  }

  lemma WrapOnce(x: nat)
    requires x < TWO_32 + TWO_31
    ensures U32(x) == if x < TWO_32 then x else x - TWO_32
  {
  }

  lemma SumNone(frames: seq<Frame>)
    ensures frames == [] ==> Sum(frames) == 0
  {
  }

  lemma SimpleFollows(p: Parser, line: Bytes)
    requires p.keep && p.mode.ReadLine? && Consistent(p) && line != []
    ensures Follows(p, Finish(AfterSimple(p, line)).p, false)
  {
    hide Sum, AddElement, CString;
    if p.frames != [] {
      AddKeepsSum(p.frames, p.reply.tree, Leaf(CString(line)));
      SumPositive(AfterSimple(p, line).frames);
      SumNone(AfterSimple(p, line).frames);
    }
  }

  lemma BulkHeaderFollows(p: Parser, line: Bytes)
    requires p.keep && p.mode.ReadLine? && Consistent(p) && line != []
    ensures Follows(p, AfterBulkHeader(p, line), false)
  {
    hide Sum, HeaderNumber, CString;
  }

  lemma BulkEndFollows(p: Parser, data: Bytes)
    requires p.keep && p.mode.EndBulk? && Consistent(p)
    ensures Follows(p, OnBulkEnd(p, data).p, false)
  {
    hide Sum, AddElement;
    if p.frames != [] {
      AddKeepsSum(p.frames, p.reply.tree, Leaf(data));
      SumPositive(AfterBulk(p, data).frames);
      SumNone(AfterBulk(p, data).frames);
    }
  }

  lemma CountingFollows(p: Parser, n: nat)
    ensures Consistent(p.(respLen := p.respLen + n)) <==> Consistent(p)
    ensures Lag(p.(respLen := p.respLen + n)) == Lag(p)
  {
  }

  lemma LineFollows(p: Parser, line: Bytes)
    requires p.keep && p.mode.ReadLine? && Consistent(p)
    ensures Follows(p, OnLine(p, line).p, LineOverflows(p, line))
  {
    hide AfterArray, AfterSimple, AfterBulkHeader, ArrayCount, Finish, Consistent, Lag;
    var q := p.(respLen := p.respLen + |line| + 2);
    CountingFollows(p, |line| + 2);
    var head := LineHead(line);
    if head == STAR {
      ArrayFollows(q, line, ArrayCount(line));
    } else if head == DOLLAR {
      BulkHeaderFollows(q, line);
    } else if line != [] {
      SimpleFollows(q, line);
    }
  }

  lemma StepFollows(p: Parser, buf: Bytes)
    requires Ready(p, buf) && Startable(p)
    ensures Follows(p, Step(p, buf).turn.p, Overflows(p, buf))
  {
    hide OnLine, OnBulkEnd, LineOverflows, Sum;
    match p.mode
    case Initial =>
    case ReadBulk =>
    case EndBulk =>
      BulkEndFollows(p, if p.bulkLen < 0 then [] else buf[..p.bulkLen]);
    case ReadLine =>
      var i := FindCrlf(buf);
      if i >= 0 {
        LineFollows(p, buf[..i]);
      }
  }

  /** With keep-value on, every turn keeps the counter equal to the sum of bulks_count along the
      chain, exactly unless a '*' line overflows it. */
  lemma StepAgrees(p: Parser, buf: Bytes)
    requires Ready(p, buf) && p.keep && Agrees(p)
    ensures Agrees(Step(p, buf).turn.p) <==> !Overflows(p, buf)
  {
    hide Step, Overflows;
    SumPositive(p.frames);
    StepFollows(p, buf);
  }

  /** How many turns of this call overflow the counter. */
  function Wraps(p: Parser, buf: Bytes): nat
    requires Ready(p, buf)
    decreases |buf|, Rank(p.mode)
  {
    StepProgress(p, buf);
    var o := Step(p, buf);
    (if Overflows(p, buf) then 1 else 0) + if o.turn.More? then Wraps(o.turn.p, o.buf) else 0
  }

  /** Some turn of this call overflows the counter. */
  predicate CallOverflows(p: Parser, buf: Bytes)
    requires Ready(p, buf)
    decreases |buf|, Rank(p.mode)
  {
    StepProgress(p, buf);
    Overflows(p, buf) || (Step(p, buf).turn.More? && CallOverflows(Step(p, buf).turn.p, Step(p, buf).buf))
  }

  lemma {:induction false} WrapsCount(p: Parser, buf: Bytes)
    requires Ready(p, buf)
    ensures Wraps(p, buf) > 0 <==> CallOverflows(p, buf)
    decreases |buf|, Rank(p.mode)
  {
    hide Step, Overflows;
    StepProgress(p, buf);
    if Step(p, buf).turn.More? {
      WrapsCount(Step(p, buf).turn.p, Step(p, buf).buf);
    }
  }

  /** Over a whole call the chain gets ahead of the counter by 2^32 for every overflow, and never falls back. */
  lemma {:induction false} ParseFollows(p: Parser, buf: Bytes)
    requires Ready(p, buf) && Startable(p)
    ensures var r := Parse(p, buf); Consistent(r.p) && Lag(r.p) == Lag(p) + TWO_32 * Wraps(p, buf)
    decreases |buf|, Rank(p.mode)
  {
    hide Step, Overflows, Consistent, Lag;
    StepProgress(p, buf);
    StepFollows(p, buf);
    var o := Step(p, buf);
    if o.turn.More? {
      MoreIsInside(p, buf);
      ParseFollows(o.turn.p, o.buf);
    }
  }

  lemma MoreIsInside(p: Parser, buf: Bytes)
    requires Ready(p, buf) && Step(p, buf).turn.More?
    ensures !Step(p, buf).turn.p.mode.Initial? && Step(p, buf).turn.p.keep == p.keep
  {
    hide OnLine, OnBulkEnd;
    match p.mode
    case Initial =>
    case ReadBulk =>
    case EndBulk =>
      BulkLands(p, if p.bulkLen < 0 then [] else buf[..p.bulkLen]);
    case ReadLine =>
      if FindCrlf(buf) >= 0 {
        LineLands(p, buf[..FindCrlf(buf)]);
      }
  }

  /** A whole call on any bytes: the counter still agrees with the chain afterwards if and only if no header of the call
      overflows it, and a reply that completes leaves no array open under exactly the same condition. */
  lemma ParseAgrees(p: Parser, buf: Bytes)
    requires Ready(p, buf) && p.keep && Agrees(p)
    ensures var r := Parse(p, buf);
            && (Agrees(r.p) <==> !CallOverflows(p, buf))
            && (r.code == 1 ==> r.p.mode.Initial? && (r.p.frames == [] <==> !CallOverflows(p, buf)))
  {
    hide Parse, Wraps, CallOverflows;
    SumPositive(p.frames);
    ParseFollows(p, buf);
    WrapsCount(p, buf);
    ParseAccounts(p, buf);
    SumPositive(Parse(p, buf).p.frames);
  }

  /** The header line of an array of n elements. */
  function HeaderOf(n: nat): (line: Bytes)
    ensures line != []
  {
    [STAR] + Dec(n)
  }

  lemma ArrayLine(p: Parser, n: nat, rest: Bytes)
    requires p.mode.ReadLine? && n < TWO_31
    ensures Parse(p, HeaderOf(n) + CRLF + rest)
         == Resume(Finish(AfterArray(Counted(p, HeaderOf(n)), HeaderOf(n), n)), rest)
  {
    var line := HeaderOf(n);
    DecNoCrlf(n, STAR);
    assert line[1..] == Dec(n);
    StrtolDec(n);
    ParseArrayLine(p, line, n, rest);
  }

  lemma OpenTop(p: Parser, n: nat, rest: Bytes) returns (q: Parser)
    requires p.keep && p.mode.ReadLine? && p.total == 0 && p.frames == [] && 0 < n < TWO_31
    ensures q.keep && q.mode.ReadLine? && q.total == n && q.frames == [Frame(n, [])]
    ensures Parse(p, HeaderOf(n) + CRLF + rest) == Parse(q, rest)
  {
    ArrayLine(p, n, rest);
    q := AfterArray(Counted(p, HeaderOf(n)), HeaderOf(n), n);
  }

  lemma NestedState(p: Parser, line: Bytes, n: nat)
    requires p.keep && p.mode.ReadLine? && p.total > 0 && p.frames != [] && 0 < n < TWO_31
    ensures var q := AfterArray(p, line, n);
            && q.mode.ReadLine? && q.total == U32(p.total - 1 + n)
            && q.frames == [Frame(n, []), p.frames[0].(left := p.frames[0].left - 1)] + p.frames[1..]
  {
  }

  lemma OpenInside(p: Parser, n: nat, rest: Bytes) returns (q: Parser)
    requires p.keep && p.mode.ReadLine? && p.total > 0 && p.frames != [] && 0 < n < TWO_31
    ensures q.keep && q.mode.ReadLine? && q.total == U32(p.total - 1 + n)
    ensures q.frames == [Frame(n, []), p.frames[0].(left := p.frames[0].left - 1)] + p.frames[1..]
    ensures Parse(p, HeaderOf(n) + CRLF + rest) == Resume(Finish(q), rest)
  {
    var line := HeaderOf(n);
    var c := Counted(p, line);
    assert c.total == p.total && c.frames == p.frames && c.keep && c.mode == p.mode;
    q := AfterArray(c, line, n);
    assert && q.total == U32(p.total - 1 + n)
           && q.frames == [Frame(n, []), p.frames[0].(left := p.frames[0].left - 1)] + p.frames[1..] by {
      NestedState(c, line, n);
    }
    ArrayLine(p, n, rest);
  }

  /** The property does fail on overflow: three nested headers announce 4294967296 elements in all, the
      counter wraps to 0, and the reply is declared complete while every array is still open. */
  lemma WrappedCounterCompletesEarly(p: Parser, big: nat, small: nat, rest: Bytes)
    requires p.keep && p.mode.ReadLine? && p.total == 0 && p.frames == []
    requires big == TWO_31 - 1 && small == 4
    ensures var r := Parse(p, HeaderOf(big) + CRLF + (HeaderOf(big) + CRLF + (HeaderOf(small) + CRLF + rest)));
            r.code == 1 && r.buf == rest && |r.p.frames| == 3 && Sum(r.p.frames) == TWO_32
  {
    var p1 := OpenTop(p, big, HeaderOf(big) + CRLF + (HeaderOf(small) + CRLF + rest));
    var p2 := OpenInside(p1, big, HeaderOf(small) + CRLF + rest);
    var p3 := OpenInside(p2, small, rest);
    assert p3.frames == [Frame(4, []), Frame(big - 1, []), Frame(big - 1, [])];
    SumSplit([Frame(4, [])], [Frame(big - 1, []), Frame(big - 1, [])]);
    SumSplit([Frame(big - 1, [])], [Frame(big - 1, [])]);
  }
}
