/** redis_protocol::parse_response as a step function over a receive buffer.

    One `Step` is one turn of the source's `while (true) switch (m_response_state)`;
    `Parse` is one call of parse_response.  The stack `frames` stands for the chain
    m_current_mbulk -> upper_level -> ... -> NULL, current element first. */
module RespParser {
  import opened ByteStrings

  const STAR: byte := '*' as int
  const DOLLAR: byte := '$' as int
  const PLUS: byte := '+' as int
  const COLON: byte := ':' as int

  /** A kept multi-bulk value: bulk_el is a leaf, mbulk_size_el a branch. */
  datatype Tree = Leaf(text: Bytes) | Branch(items: seq<Tree>)

  /** One open mbulk_size_el: how many elements are still to come, and those already there. */
  datatype Frame = Frame(left: int, items: seq<Tree>)

  datatype Mode = Initial | ReadLine | ReadBulk | EndBulk

  /** protocol_response; an absent value and an empty one are the same. */
  datatype Reply = Reply(status: Option<Bytes>, tree: Option<Tree>, value: Bytes,
                         totalLen: nat, hits: nat, error: bool)

  const EMPTY_REPLY := Reply(None, None, [], 0, 0, false)

  datatype Parser = Parser(keep: bool, mode: Mode, bulkLen: int, respLen: nat,
                           total: nat, frames: seq<Frame>, reply: Reply)

  const NEW_PARSER := Parser(false, Initial, 0, 0, 0, [], EMPTY_REPLY)

  /** How a turn of the loop ends. */
  datatype Turn = More(p: Parser) | Done(code: int, p: Parser)

  datatype Outcome = Outcome(turn: Turn, buf: Bytes)

  // ----- the multi-bulk chain -----

  /** get_next_mbulk: leave finished elements; leaving the outermost one completes the tree. */
  function Settle(frames: seq<Frame>, tree: Option<Tree>): (seq<Frame>, Option<Tree>)
    decreases |frames|
  {
    if frames == [] || frames[0].left != 0 then (frames, tree)
    else if |frames| == 1 then ([], Some(Branch(frames[0].items)))
    else
      var parent := frames[1].(items := frames[1].items + [Branch(frames[0].items)]);
      Settle([parent] + frames[2..], tree)
  }

  /** add_new_element on the current element, then get_next_mbulk. */
  function AddElement(frames: seq<Frame>, tree: Option<Tree>, t: Tree): (seq<Frame>, Option<Tree>)
    requires frames != []
  {
    Settle([Frame(frames[0].left - 1, frames[0].items + [t])] + frames[1..], tree)
  }

  /** A new mbulk_size_el of `count` elements becomes the response value or an element of the
      current one, which counts it at once; then get_next_mbulk. */
  function OpenArray(frames: seq<Frame>, tree: Option<Tree>, count: nat): (seq<Frame>, Option<Tree>) {
    if frames == [] then Settle([Frame(count, [])], tree)
    else Settle([Frame(count, []), frames[0].(left := frames[0].left - 1)] + frames[1..], tree)
  }

  // ----- one turn of the loop -----

  function LineHead(line: Bytes): byte {
    if line == [] then NUL else line[0]
  }

  /** The number after the type character of a header line. */
  function HeaderNumber(line: Bytes): int
    requires line != []
  {
    Strtol(line[1..])
  }

  /** Elements announced by a '*' line: an int, negative ones count as none. */
  function ArrayCount(line: Bytes): (n: nat)
    requires line != []
    ensures n < TWO_31
  {
    var count := ToInt32(HeaderNumber(line));
    if count < 0 then 0 else count
  }

  /** End of an element: the reply is complete when nothing is outstanding. */
  function Finish(p: Parser): (t: Turn)
    ensures t.p.keep == p.keep && t.p.respLen == p.respLen
  {
    if p.total == 0 then
      Done(1, p.(mode := Initial, reply := p.reply.(totalLen := U32(p.respLen))))
    else
      More(p.(mode := ReadLine))
  }

  /** A '*' line announcing count elements; a nested array is itself one of the elements awaited. */
  function AfterArray(p: Parser, line: Bytes, count: nat): (q: Parser)
    ensures q.keep == p.keep && q.respLen == p.respLen
  {
    var before := if p.total > 0 then p.total - 1 else 0;
    var (frames, tree) := if p.keep then OpenArray(p.frames, p.reply.tree, count)
                          else (p.frames, p.reply.tree);
    p.(total := U32(before + count), frames := frames,
       reply := p.reply.(status := Some(CString(line)), tree := tree))
  }

  /** A '$' line; a bulk that is not part of an array is counted here. */
  function AfterBulkHeader(p: Parser, line: Bytes): (q: Parser)
    requires line != []
    ensures q.keep == p.keep && q.respLen == p.respLen
    ensures if q.bulkLen < 0 then q.mode.EndBulk? else q.mode.ReadBulk?
  {
    var len := HeaderNumber(line);
    p.(total := if p.total == 0 then 1 else p.total, bulkLen := len,
       mode := if len < 0 then EndBulk else ReadBulk,
       reply := p.reply.(status := Some(CString(line))))
  }

  /** A '+', '-' or ':' line. */
  function AfterSimple(p: Parser, line: Bytes): (q: Parser)
    requires line != []
    ensures q.keep == p.keep && q.respLen == p.respLen
  {
    var (frames, tree) := if p.keep && p.frames != [] then AddElement(p.frames, p.reply.tree, Leaf(CString(line)))
                          else (p.frames, p.reply.tree);
    p.(total := if p.total == 0 then 0 else p.total - 1, frames := frames,
       reply := p.reply.(status := Some(CString(line)), tree := tree,
                         error := p.reply.error || line[0] == MINUS))
  }

  /** What a line means, by its first character. */
  function Dispatch(p: Parser, line: Bytes): Turn {
    var head := LineHead(line);
    if head == STAR then Finish(AfterArray(p, line, ArrayCount(line)))
    else if head == DOLLAR then More(AfterBulkHeader(p, line))
    else if head == PLUS || head == MINUS || head == COLON then Finish(AfterSimple(p, line))
    else Done(-1, p)
  }

  /** A line and its CRLF are counted, then acted on. */
  function OnLine(p: Parser, line: Bytes): Turn {
    Dispatch(p.(respLen := p.respLen + |line| + 2), line)
  }

  /** The bulk and its CRLF are in the buffer. */
  function OnBulkReceived(p: Parser): Parser
    requires p.bulkLen >= 0
  {
    p.(mode := EndBulk, respLen := p.respLen + p.bulkLen + 2,
       reply := p.reply.(hits := p.reply.hits + if p.bulkLen > 0 then 1 else 0))
  }

  /** The bulk is taken out of the buffer. */
  function AfterBulk(p: Parser, data: Bytes): (q: Parser)
    ensures q.keep == p.keep && q.respLen == p.respLen
  {
    var q :=
      if !p.keep then p
      else if p.frames != [] then
        var (frames, tree) := AddElement(p.frames, p.reply.tree, Leaf(data));
        p.(frames := frames, reply := p.reply.(tree := tree))
      else p.(reply := p.reply.(value := data));
    q.(total := U32(p.total - 1))
  }

  function OnBulkEnd(p: Parser, data: Bytes): Turn {
    Finish(AfterBulk(p, data))
  }

  /** What holds whenever the loop turns: a bulk being ended is in the buffer. */
  predicate Ready(p: Parser, buf: Bytes) {
    && (p.mode.ReadBulk? ==> p.bulkLen >= 0)
    && (p.mode.EndBulk? && p.bulkLen >= 0 ==> |buf| >= p.bulkLen + 2)
  }

  function Step(p: Parser, buf: Bytes): Outcome
    requires Ready(p, buf)
  {
    match p.mode
    case Initial =>
      Outcome(More(p.(mode := ReadLine, respLen := 0, total := 0, reply := EMPTY_REPLY)), buf)
    case ReadLine =>
      var i := FindCrlf(buf);
      if i < 0 then Outcome(Done(0, p), buf) else Outcome(OnLine(p, buf[..i]), buf[i + 2..])
    case ReadBulk =>
      Outcome(if |buf| >= p.bulkLen + 2 then More(OnBulkReceived(p)) else Done(0, p), buf)
    case EndBulk =>
      if p.bulkLen < 0 then Outcome(OnBulkEnd(p, []), buf)
      else Outcome(OnBulkEnd(p, buf[..p.bulkLen]), buf[p.bulkLen + 2..])
  }

  /** Order in which the modes can follow each other without a byte being consumed. */
  function Rank(m: Mode): nat {
    match m
    case Initial => 3
    case ReadBulk => 2
    case EndBulk => 1
    case ReadLine => 0
  }

  /** A state in which a call of parse_response can leave the parser. */
  predicate AtRest(p: Parser) {
    !p.mode.EndBulk? && (p.mode.ReadBulk? ==> p.bulkLen >= 0)
  }

  /** Where a turn that acts on input (a line, or a whole bulk) can lead; it counts n bytes. */
  predicate Lands(p: Parser, t: Turn, n: nat) {
    && t.p.keep == p.keep
    && t.p.respLen == p.respLen + n
    && match t
       case Done(code, q) =>
         if code == 1 then q.mode.Initial? && q.reply.totalLen == U32(q.respLen)
         else code == -1 && q.mode.ReadLine?
       case More(q) => q.mode.ReadLine? || (q.mode.ReadBulk? && q.bulkLen >= 0) || (q.mode.EndBulk? && q.bulkLen < 0)
  }

  lemma LineLands(p: Parser, line: Bytes)
    requires p.mode.ReadLine?
    ensures Lands(p, OnLine(p, line), |line| + 2)
  {
  }

  lemma BulkLands(p: Parser, data: Bytes)
    ensures Lands(p, OnBulkEnd(p, data), 0)
    ensures OnBulkEnd(p, data).More? ==> OnBulkEnd(p, data).p.mode.ReadLine?
    ensures OnBulkEnd(p, data).Done? ==> OnBulkEnd(p, data).code == 1
  {
  }

  predicate Progresses(p: Parser, buf: Bytes, o: Outcome) {
    && Ready(o.turn.p, o.buf)
    && o.turn.p.keep == p.keep
    && |o.buf| <= |buf| && o.buf == buf[|buf| - |o.buf|..]
    && match o.turn
       case More(q) => |o.buf| < |buf| || Rank(q.mode) < Rank(p.mode)
       case Done(code, q) =>
         && AtRest(q)
         && code in {-1, 0, 1}
         && (code == 0 ==> q == p && o.buf == buf)
         && (code != 0 && (p.mode.EndBulk? ==> p.bulkLen >= 0) ==> |o.buf| < |buf|)
  }

  lemma LineProgress(p: Parser, buf: Bytes)
    requires p.mode.ReadLine?
    ensures Progresses(p, buf, Step(p, buf))
  {
    var i := FindCrlf(buf);
    if i >= 0 {
      LineLands(p, buf[..i]);
    }
  }

  lemma BulkProgress(p: Parser, buf: Bytes)
    requires Ready(p, buf) && p.mode.EndBulk?
    ensures Progresses(p, buf, Step(p, buf))
  {
    BulkLands(p, if p.bulkLen < 0 then [] else buf[..p.bulkLen]);
  }

  lemma StepProgress(p: Parser, buf: Bytes)
    requires Ready(p, buf)
    ensures Progresses(p, buf, Step(p, buf))
  {
    if p.mode.ReadLine? {
      LineProgress(p, buf);
    } else if p.mode.EndBulk? {
      BulkProgress(p, buf);
    }
  }

  datatype Result = Result(code: int, p: Parser, buf: Bytes)

  /** One call of parse_response: 1 a reply is complete, 0 more bytes are needed, -1 a line is not RESP. */
  function Parse(p: Parser, buf: Bytes): (r: Result)
    requires Ready(p, buf)
    ensures r.code in {-1, 0, 1} && AtRest(r.p) && r.p.keep == p.keep
    ensures |r.buf| <= |buf|
    decreases |buf|, Rank(p.mode)
  {
    StepProgress(p, buf);
    var o := Step(p, buf);
    match o.turn
    case Done(code, q) => Result(code, q, o.buf)
    case More(q) => Parse(q, o.buf)
  }

  /** The rest of a call after a turn. */
  function Resume(t: Turn, buf: Bytes): Result
    requires t.More? ==> Ready(t.p, buf)
  {
    match t
    case Done(code, q) => Result(code, q, buf)
    case More(q) => Parse(q, buf)
  }
}
