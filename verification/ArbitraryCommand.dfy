/** Arbitrary commands: from the text given on the command line to the bytes sent. */
module ArbitraryCommand {
  import opened ByteStrings
  import opened RespNested
  import opened RespParser
  import opened RespValue
  import opened RespWriter

  const QUOTE: byte := '"' as int
  const APOSTROPHE: byte := '\'' as int
  const BACKSLASH: byte := '\\' as int

  // ----- splitting a line into arguments -----

  /** *(p + k): the terminating NUL is readable, nothing beyond it is read. */
  function At(s: Bytes, i: nat): byte {
    if i < |s| then s[i] else NUL
  }

  predicate IsHexDigit(b: byte) {
    48 <= b <= 57 || 65 <= b <= 70 || 97 <= b <= 102
  }

  /** hex_digit_to_int */
  function HexValue(b: byte): int {
    if 97 <= b <= 102 then b - 97 + 10
    else if 65 <= b <= 70 then b - 65 + 10
    else if 48 <= b <= 57 then b - 48
    else -1
  }

  /** The byte that a backslash and c stand for inside double quotes. */
  function Unescape(c: byte): byte {
    if c == 'n' as int then 10
    else if c == 'r' as int then 13
    else if c == 't' as int then 9
    else if c == 'b' as int then 8
    else if c == 'a' as int then 7
    else c
  }

  predicate HexEscapeAt(s: Bytes, i: nat) {
    At(s, i) == BACKSLASH && At(s, i + 1) == 'x' as int && IsHexDigit(At(s, i + 2)) && IsHexDigit(At(s, i + 3))
  }

  /** A closing quote must be followed by a blank or the end. */
  predicate ClosesAt(s: Bytes, i: nat) {
    At(s, i + 1) == NUL || IsSpace(At(s, i + 1))
  }

  predicate EndsWord(b: byte) {
    b == 32 || b == 10 || b == 13 || b == 9 || b == NUL
  }

  datatype Quoting = Bare | Double | Single

  /** One turn of the token loop: a byte of the token, a change of quoting, its end, or an error. */
  datatype Lexeme = Emit(b: byte, next: nat) | Enter(q: Quoting, next: nat) | Stop(next: nat) | Bad

  function Lex(s: Bytes, i: nat, q: Quoting): Lexeme {
    var c := At(s, i);
    match q
    case Double =>
      if HexEscapeAt(s, i) then Emit(HexValue(s[i + 2]) * 16 + HexValue(s[i + 3]), i + 4)
      else if c == BACKSLASH && At(s, i + 1) != NUL then Emit(Unescape(s[i + 1]), i + 2)
      else if c == QUOTE then (if ClosesAt(s, i) then Stop(i + 1) else Bad)
      else if c == NUL then Bad
      else Emit(c, i + 1)
    case Single =>
      if c == BACKSLASH && At(s, i + 1) == APOSTROPHE then Emit(APOSTROPHE, i + 2)
      else if c == APOSTROPHE then (if ClosesAt(s, i) then Stop(i + 1) else Bad)
      else if c == NUL then Bad
      else Emit(c, i + 1)
    case Bare =>
      if EndsWord(c) then Stop(if c == NUL then i else i + 1)
      else if c == QUOTE then Enter(Double, i + 1)
      else if c == APOSTROPHE then Enter(Single, i + 1)
      else Emit(c, i + 1)
  }

  lemma LexInside(s: Bytes, i: nat, q: Quoting)
    requires i <= |s| && NUL !in s
    ensures match Lex(s, i, q)
            case Emit(_, next) => i < next <= |s|
            case Enter(_, next) => i < next <= |s|
            case Stop(next) => i <= next <= |s| && (q.Bare? ==> (next > i <==> i < |s|)) && (!q.Bare? ==> next > i)
            case Bad => true
  {
  }

  datatype Token = Token(text: Bytes, next: nat) | Malformed

  /** The token that continues at i, with the text collected so far. */
  function Scan(s: Bytes, i: nat, q: Quoting, text: Bytes): (t: Token)
    requires i <= |s| && NUL !in s
    ensures t.Token? ==> i <= t.next <= |s| && (i < |s| ==> i < t.next)
    decreases |s| - i
  {
    LexInside(s, i, q);
    match Lex(s, i, q)
    case Emit(b, next) => Scan(s, next, q, text + [b])
    case Enter(r, next) => Scan(s, next, r, text)
    case Stop(next) => Token(text, next)
    case Bad => Malformed
  }

  function SkipBlanks(s: Bytes, i: nat): (j: nat)
    requires i <= |s|
    ensures i <= j <= |s| && (j < |s| ==> !IsSpace(s[j]))
    decreases |s| - i
  {
    if i < |s| && IsSpace(s[i]) then SkipBlanks(s, i + 1) else i
  }

  /** split_command_to_args, from position i on. */
  function Split(s: Bytes, i: nat): Option<seq<Bytes>>
    requires i <= |s| && NUL !in s
    decreases |s| - i
  {
    var j := SkipBlanks(s, i);
    if j == |s| then Some([])
    else
      match Scan(s, j, Bare, [])
      case Malformed => None
      case Token(text, next) =>
        match Split(s, next)
        case None => None
        case Some(args) => Some([text] + args)
  }

  /** The token loop, writing into the scratch buffer: every write lands inside it. */
  method ScanToken(s: Bytes, start: nat, buffer: array<byte>) returns (ok: bool, len: nat, p: nat)
    requires NUL !in s && start < |s| == buffer.Length
    modifies buffer
    ensures !ok <==> Scan(s, start, Bare, []).Malformed?
    ensures ok ==> len <= buffer.Length && Scan(s, start, Bare, []) == Token(buffer[..len], p)
  {
    hide Lex;
    var q, done := Bare, false;
    ok, len, p := true, 0, start;
    while !done
      invariant ok && start <= p <= |s| && len <= p - start
      invariant if done then Scan(s, start, Bare, []) == Token(buffer[..len], p)
                else Scan(s, start, Bare, []) == Scan(s, p, q, buffer[..len])
      decreases !done, |s| - p
    {
      LexInside(s, p, q);
      match Lex(s, p, q)
      case Emit(b, next) =>
        ghost var before := buffer[..len];
        buffer[len] := b;
        len := len + 1;
        assert buffer[..len] == before + [b];
        p := next;
      case Enter(r, next) =>
        q, p := r, next;
      case Stop(next) =>
        p, done := next, true;
      case Bad =>
        ok := false;
        return;
    }
  }

  /** split_command_to_args, with its scratch buffer of command_len bytes. */
  method SplitCommand(s: Bytes) returns (ok: bool, args: seq<Bytes>)
    requires NUL !in s
    ensures ok <==> Split(s, 0).Some?
    ensures ok ==> Split(s, 0) == Some(args)
  {
    hide Scan;
    var buffer := new byte[|s|](_ => 0);
    var p := 0;
    args := [];
    assert Split(s, 0).Some? ==> args + Split(s, 0).value == Split(s, 0).value;
    while true
      invariant p <= |s|
      invariant Split(s, 0) == match Split(s, p) case None => None case Some(rest) => Some(args + rest)
      decreases |s| - p
    {
      ghost var from := p;
      while p < |s| && IsSpace(s[p])
        invariant from <= p <= |s|
        invariant SkipBlanks(s, from) == SkipBlanks(s, p)
      {
        p := p + 1;
      }
      if p == |s| {
        assert args + [] == args;
        return true, args;
      }
      var good, len, next := ScanToken(s, p, buffer);
      if !good {
        return false, args;
      }
      ghost var rest := Split(s, next);
      assert rest.Some? ==> args + ([buffer[..len]] + rest.value) == (args + [buffer[..len]]) + rest.value;
      args, p := args + [buffer[..len]], next;
    }
  }

  // ----- steps of splitting -----

  lemma SplitToken(s: Bytes, i: nat, text: Bytes, next: nat)
    requires i < |s| && NUL !in s && !IsSpace(s[i]) && Scan(s, i, Bare, []) == Token(text, next)
    ensures Split(s, i) == match Split(s, next) case None => None case Some(args) => Some([text] + args)
  {
    hide Scan;
    assert SkipBlanks(s, i) == i;
  }

  lemma SplitBlank(s: Bytes, i: nat)
    requires i < |s| && IsSpace(s[i]) && NUL !in s
    ensures Split(s, i) == Split(s, i + 1)
  {
    assert SkipBlanks(s, i) == SkipBlanks(s, i + 1);
  }

  lemma SplitEnd(s: Bytes)
    requires NUL !in s
    ensures Split(s, |s|) == Some([])
  {
  }

  // ----- from arguments to the wire -----

  datatype ArgType = ConstArg | KeyArg | DataArg

  datatype CommandArg = CommandArg(kind: ArgType, data: Bytes)

  const KEY_PLACEHOLDER: Bytes := Ascii("__key__")
  const DATA_PLACEHOLDER: Bytes := Ascii("__data__")

  predicate MatchesAt(s: Bytes, i: nat, pattern: Bytes) {
    i <= |s| - |pattern| && s[i..i + |pattern|] == pattern
  }

  /** std::string::find(...) != npos */
  predicate Contains(s: Bytes, pattern: Bytes) {
    exists i: nat | i <= |s| :: MatchesAt(s, i, pattern)
  }

  /** The kind of an argument; a placeholder must be the whole argument. */
  function KindOf(arg: Bytes): Option<ArgType> {
    if Contains(arg, KEY_PLACEHOLDER) then
      if |arg| == |KEY_PLACEHOLDER| then Some(KeyArg) else None
    else if Contains(arg, DATA_PLACEHOLDER) then
      if |arg| == |DATA_PLACEHOLDER| then Some(DataArg) else None
    else Some(ConstArg)
  }

  lemma WholeMatch(s: Bytes, pattern: Bytes)
    requires |s| == |pattern|
    ensures Contains(s, pattern) <==> s == pattern
  {
    assert s[0..|s|] == s;
    assert MatchesAt(s, 0, pattern) <==> s == pattern;
  }

  lemma NoKeyInData()
    ensures !Contains(DATA_PLACEHOLDER, KEY_PLACEHOLDER)
  {
    var s := DATA_PLACEHOLDER;
    forall i: nat | i <= |s| ensures !MatchesAt(s, i, KEY_PLACEHOLDER) {
      if i == 0 {
        assert s[0..7][2] == s[2] == 'd' as int && KEY_PLACEHOLDER[2] == 'k' as int;
      } else if i == 1 {
        assert s[1..8][1] == s[2] == 'd' as int && KEY_PLACEHOLDER[1] == '_' as int;
      }
    }
  }

  /** Exactly the two placeholders are replaced, and only arguments that mix one with other text are refused. */
  lemma KindMeaning(arg: Bytes)
    ensures KindOf(arg) == Some(KeyArg) <==> arg == KEY_PLACEHOLDER
    ensures KindOf(arg) == Some(DataArg) <==> arg == DATA_PLACEHOLDER
    ensures KindOf(arg) == None <==>
            && (Contains(arg, KEY_PLACEHOLDER) || Contains(arg, DATA_PLACEHOLDER))
            && arg != KEY_PLACEHOLDER && arg != DATA_PLACEHOLDER
  {
    if |arg| == |KEY_PLACEHOLDER| {
      WholeMatch(arg, KEY_PLACEHOLDER);
    }
    if |arg| == |DATA_PLACEHOLDER| {
      WholeMatch(arg, DATA_PLACEHOLDER);
    }
    WholeMatch(KEY_PLACEHOLDER, KEY_PLACEHOLDER);
    NoKeyInData();
  }

  /** What is printed in front of argument i of n: the first one also announces the array. */
  function Prefix(i: nat, n: nat, arg: Bytes): Bytes {
    (if i == 0 then ArrayHead(n) else []) + LenHeader(|arg|)
  }

  /** A constant argument carries its own wire form after formatting; a placeholder stays as it is. */
  predicate Formatted(args: seq<Bytes>, cmd: seq<CommandArg>) {
    && |cmd| == |args|
    && forall i :: 0 <= i < |args| ==>
         && KindOf(args[i]) == Some(cmd[i].kind)
         && cmd[i].data == if cmd[i].kind.ConstArg? then Prefix(i, |args|, args[i]) + args[i] + CRLF else args[i]
  }

  /** How formatting ends at an argument: it is fine, it is refused, the assertion on the command name fails, or the
      header does not fit the 20-byte buffer, terminator included, and bytes behind the buffer are read. */
  datatype Fault = Fine | Refused | Asserts | Overruns

  function FaultAt(args: seq<Bytes>, i: nat): Fault
    requires i < |args|
  {
    match KindOf(args[i])
    case None => Refused
    case Some(kind) =>
      if i == 0 && !kind.ConstArg? then Asserts
      else if kind.ConstArg? && |Prefix(i, |args|, args[i])| >= 20 then Overruns
      else Fine
  }

  /** The first fault from argument i on. */
  function FirstFault(args: seq<Bytes>, i: nat): Fault
    requires i <= |args|
    decreases |args| - i
  {
    if i == |args| then Fine else if FaultAt(args, i).Fine? then FirstFault(args, i + 1) else FaultAt(args, i)
  }

  /** Formatting succeeds exactly when every argument has a kind, the first one is constant, and every header of a
      constant fits its buffer. */
  lemma {:induction false} FineMeans(args: seq<Bytes>, i: nat)
    requires i <= |args|
    ensures FirstFault(args, i).Fine? <==> forall k :: i <= k < |args| ==>
              && KindOf(args[k]).Some?
              && (k == 0 ==> KindOf(args[k]) == Some(ConstArg))
              && (KindOf(args[k]) == Some(ConstArg) ==> |Prefix(k, |args|, args[k])| < 20)
    decreases |args| - i
  {
    hide KindOf, Prefix;
    if i < |args| {
      FineMeans(args, i + 1);
    }
  }

  /** Headers fit for commands of fewer than a million arguments of fewer than ten million bytes each. */
  lemma ShortHeadersFit(n: nat, arg: Bytes, i: nat)
    requires n < 1000000 && |arg| < 10000000
    ensures |Prefix(i, n, arg)| < 20
  {
    hide Dec;
    NumberLengthIsWidth(n);
    NumberLengthIsWidth(|arg|);
  }

  /** format_arbitrary_command */
  method FormatCommand(args: seq<Bytes>) returns (fault: Fault, cmd: seq<CommandArg>)
    ensures fault == FirstFault(args, 0)
    ensures fault.Fine? ==> Formatted(args, cmd)
  {
    hide KindOf, Prefix;
    cmd := [];
    for i := 0 to |args|
      invariant |cmd| == i && FirstFault(args, 0) == FirstFault(args, i)
      invariant forall k :: 0 <= k < i ==>
        && KindOf(args[k]) == Some(cmd[k].kind)
        && cmd[k].data == if cmd[k].kind.ConstArg? then Prefix(k, |args|, args[k]) + args[k] + CRLF else args[k]
    {
      var kind := KindOf(args[i]);
      if kind.None? {
        return Refused, cmd;
      }
      if i == 0 && !kind.value.ConstArg? {
        return Asserts, cmd;
      }
      var data := args[i];
      if kind.value.ConstArg? {
        var buffer := Prefix(i, |args|, args[i]);
        if |buffer| >= 20 {
          return Overruns, cmd;
        }
        data := buffer + data + CRLF;
      }
      cmd := cmd + [CommandArg(kind.value, data)];
    }
    fault := Fine;
  }

  /** The arguments with each placeholder replaced by the value generated for it. */
  function Filled(args: seq<Bytes>, vals: seq<Bytes>): (r: seq<Bytes>)
    requires |args| == |vals|
    ensures |r| == |args|
    ensures forall i :: 0 <= i < |args| ==> r[i] == if KindOf(args[i]) == Some(ConstArg) then args[i] else vals[i]
  {
    seq(|args|, i requires 0 <= i < |args| => if KindOf(args[i]) == Some(ConstArg) then args[i] else vals[i])
  }

  lemma BulksSnoc(args: seq<Bytes>, i: nat)
    requires i < |args|
    ensures EncodeAll(Bulks(args[..i + 1])) == EncodeAll(Bulks(args[..i])) + Arg(args[i])
  {
    assert Bulks(args[..i + 1]) == Bulks(args[..i]) + [Bulk(args[i])];
    EncodeAllSnoc(Bulks(args[..i]), Bulk(args[i]));
    ArgIsBulk(args[i]);
  }

  /** The bytes of argument i; the first argument also announces the array. */
  ghost function Part(args: seq<Bytes>, i: nat): Bytes
    requires i < |args|
  {
    (if i == 0 then ArrayHead(|args|) else []) + Arg(args[i])
  }

  /** A constant argument carries its part of the command; of any other, the part is a header, the value and CRLF. */
  lemma PartIs(args: seq<Bytes>, cmd: seq<CommandArg>, vals: seq<Bytes>, i: nat)
    requires Formatted(args, cmd) && |vals| == |args| && i < |args| && (i == 0 ==> cmd[0].kind.ConstArg?)
    ensures Part(Filled(args, vals), i)
         == if cmd[i].kind.ConstArg? then cmd[i].data else LenHeader(|vals[i]|) + vals[i] + CRLF
  {
    hide KindOf, ArrayHead, LenHeader;
    var f := Filled(args, vals)[i];
    var head := if i == 0 then ArrayHead(|args|) else [];
    assert head + (LenHeader(|f|) + f + CRLF) == head + LenHeader(|f|) + f + CRLF;
  }

  /** send_arbitrary_command of one argument: its bytes if it is constant, else the generated value. */
  method SendArg(w: RedisWriter, ghost args: seq<Bytes>, cmd: seq<CommandArg>, vals: seq<Bytes>, i: nat)
    returns (size: int)
    requires Formatted(args, cmd) && |vals| == |args| && i < |args| && (i == 0 ==> cmd[0].kind.ConstArg?)
    modifies w
    ensures w.writeBuf == old(w.writeBuf) + Part(Filled(args, vals), i)
    ensures size == |Part(Filled(args, vals), i)|
  {
    PartIs(args, cmd, vals, i);
    FormattedSize(args, cmd);
    hide KindOf, ArrayHead, LenHeader, Formatted, Filled, Part, Arg;
    if cmd[i].kind.ConstArg? {
      size := w.Add(cmd[i].data);
    } else {
      size := SendValue(w, vals[i]);
    }
  }

  /** A generated value: its header, its bytes and CRLF. */
  method SendValue(w: RedisWriter, val: Bytes) returns (size: int)
    modifies w
    ensures w.writeBuf == old(w.writeBuf) + (LenHeader(|val|) + val + CRLF) && size == |LenHeader(|val|) + val + CRLF|
  {
    hide LenHeader;
    ghost var base := w.writeBuf;
    size := w.Add(LenHeader(|val|));
    var n := w.Add(val);
    size := size + |val|;
    n := w.Add(CRLF);
    size := size + 2;
    assert base + LenHeader(|val|) + val + CRLF == base + (LenHeader(|val|) + val + CRLF);
  }

  /** create_arbitrary_request: the bytes put on the wire are the RESP array of the filled-in arguments,
      and the recorded size is their number. */
  method SendCommand(w: RedisWriter, ghost args: seq<Bytes>, cmd: seq<CommandArg>, vals: seq<Bytes>)
    returns (size: int)
    requires args != [] && Formatted(args, cmd) && |vals| == |args| && cmd[0].kind.ConstArg?
    modifies w
    ensures w.writeBuf == old(w.writeBuf) + Command(Filled(args, vals))
    ensures size == |Command(Filled(args, vals))|
  {
    hide *;
    FormattedSize(args, cmd);
    ghost var filled := Filled(args, vals);
    ghost var base := w.writeBuf;
    BufferStarts(base, filled);
    size := 0;
    for i := 0 to |cmd|
      invariant w.writeBuf == Buffer(base, filled, i) && size == SizeSent(filled, i)
    {
      BufferStep(base, filled, i);
      var n := SendArg(w, args, cmd, vals, i);
      size := size + n;
    }
    BufferEnds(base, filled);
  }

  lemma FormattedSize(args: seq<Bytes>, cmd: seq<CommandArg>)
    requires Formatted(args, cmd)
    ensures |cmd| == |args|
  {
  }

  /** The write buffer with a command up to argument i behind what was there. */
  ghost function Buffer(base: Bytes, args: seq<Bytes>, i: nat): Bytes
    requires i <= |args|
  {
    base + Sent(args, i)
  }

  ghost function SizeSent(args: seq<Bytes>, i: nat): nat
    requires i <= |args|
  {
    |Sent(args, i)|
  }

  lemma BufferStarts(base: Bytes, args: seq<Bytes>)
    ensures Buffer(base, args, 0) == base && SizeSent(args, 0) == 0
  {
    hide Sent;
    SentNothing(args);
  }

  lemma BufferStep(base: Bytes, args: seq<Bytes>, i: nat)
    requires i < |args|
    ensures Buffer(base, args, i) + Part(args, i) == Buffer(base, args, i + 1)
    ensures SizeSent(args, i) + |Part(args, i)| == SizeSent(args, i + 1)
  {
    hide Sent, Part;
    SentStep(args, i);
  }

  lemma BufferEnds(base: Bytes, args: seq<Bytes>)
    requires args != []
    ensures Buffer(base, args, |args|) == base + Command(args) && SizeSent(args, |args|) == |Command(args)|
  {
    hide Sent, Command;
    SentAll(args);
  }

  /** The bytes of a command up to argument i. */
  ghost function Sent(args: seq<Bytes>, i: nat): Bytes
    requires i <= |args|
  {
    (if i == 0 then [] else ArrayHead(|args|)) + EncodeAll(Bulks(args[..i]))
  }

  lemma SentNothing(args: seq<Bytes>)
    ensures Sent(args, 0) == []
  {
    assert Bulks(args[..0]) == [];
  }

  lemma SentStep(args: seq<Bytes>, i: nat)
    requires i < |args|
    ensures Sent(args, i + 1) == Sent(args, i) + Part(args, i)
  {
    hide ArrayHead, Arg, EncodeAll, Bulks;
    BulksSnoc(args, i);
    if i == 0 {
      SentNothing(args);
      assert EncodeAll(Bulks(args[..i])) == [];
    }
  }

  lemma SentAll(args: seq<Bytes>)
    requires args != []
    ensures Sent(args, |args|) == Command(args)
  {
    hide ArrayHead, EncodeAll, Bulks;
    assert args[..|args|] == args;
    CommandIs(args);
  }

  lemma CommandIs(args: seq<Bytes>)
    ensures Command(args) == ArrayHead(|args|) + EncodeAll(Bulks(args))
  {
  }

  /** What was sent is what the parser of the same program would read: the filled-in argument list. */
  lemma CommandParsesBack(p: Parser, args: seq<Bytes>, rest: Bytes)
    requires p.mode.Initial? && p.frames == [] && p.keep && |Command(args)| < TWO_32
    ensures ReadsAs(Parse(p, Command(args) + rest), args, rest)
  {
    hide Parse;
    CommandValid(args);
    ShortReceivable(CommandValue(args));
    ParseInvertsEncode(p, CommandValue(args), rest);
    TreesOfBulks(args);
  }

  /** The parser has read one command with these arguments and nothing more. */
  predicate ReadsAs(r: Result, args: seq<Bytes>, rest: Bytes) {
    && r.code == 1 && r.buf == rest
    && r.p.reply.tree == Some(Branch(Leaves(args))) && r.p.reply.totalLen == |Command(args)|
  }

  /** From the command line to the wire: split, format and send. */
  method SendText(w: RedisWriter, text: Bytes, vals: seq<Bytes>) returns (fault: Option<Fault>, size: int)
    requires NUL !in text && (Split(text, 0).Some? ==> |vals| == |Split(text, 0).value|)
    modifies w
    ensures fault.None? <==> Split(text, 0).None?
    ensures fault.Some? ==> fault.value == FirstFault(Split(text, 0).value, 0)
    ensures fault == Some(Fine) && vals != [] ==>
              var filled := Filled(Split(text, 0).value, vals);
              w.writeBuf == old(w.writeBuf) + Command(filled) && size == |Command(filled)|
    ensures fault != Some(Fine) || vals == [] ==> w.writeBuf == old(w.writeBuf) && size == 0
  {
    hide Split, FirstFault, Command, Filled;
    size := 0;
    var ok, args := SplitCommand(text);
    if !ok {
      return None, size;
    }
    var verdict, cmd := FormatCommand(args);
    if verdict.Fine? && args != [] {
      FineFirst(args, cmd);
      size := SendCommand(w, args, cmd, vals);
    }
    fault := Some(verdict);
  }

  lemma FineFirst(args: seq<Bytes>, cmd: seq<CommandArg>)
    requires args != [] && FirstFault(args, 0).Fine? && Formatted(args, cmd)
    ensures cmd[0].kind.ConstArg?
  {
    hide KindOf;
    FineMeans(args, 0);
  }
}
