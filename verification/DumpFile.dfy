/** The CSV-like dump file: what file_writer writes and what file_reader reads, over the unread rest of a file. */
module DumpFile {
  import opened ByteStrings
  import opened Scanf

  const QUOTE: byte := '"' as int
  const COMMA: byte := ',' as int

  /** memcache_item; data ends in CRLF and nbytes is its length. */
  datatype Item = Item(dumpflags: nat, time: nat, exptime: nat, nsuffix: nat, flags: nat, clsid: nat,
                       key: Bytes, data: Bytes)

  // ----- reading a field -----

  /** The loop state of read_string. */
  datatype Scan = Scan(rest: Bytes, left: nat, first: bool, dequote: bool, skip: bool, text: Bytes)

  /** One turn of the loop: go on, leave it, or premature end of file. */
  datatype Turn = Next(s: Scan) | Break(s: Scan) | Eof

  function ReadTurn(s: Scan): (t: Turn)
    requires s.left > 0
    ensures t.Next? ==> |t.s.rest| < |s.rest|
    ensures t.Break? ==> |t.s.rest| <= |s.rest|
  {
    if s.rest == [] then Eof
    else
      var c := s.rest[0];
      var t := s.(rest := s.rest[1..], first := false);
      if s.first && c == QUOTE then Next(t.(dequote := true))
      else if s.skip then (if c == QUOTE then Next(t.(skip := false)) else Break(t))
      else if s.dequote then Next(t.(skip := c == QUOTE, text := s.text + [c], left := s.left - 1))
      else if c == QUOTE then Break(t)
      else if c == COMMA || c == CR || c == LF then Break(t.(rest := s.rest))
      else Next(t.(text := s.text + [c], left := s.left - 1))
  }

  function SkipOne(s: Bytes): (r: Bytes)
    ensures |r| <= |s|
  {
    if s == [] then [] else s[1..]
  }

  /** After the last wanted character: the second half of a doubled quote, then the closing quote. */
  function Closing(s: Scan): Bytes {
    if !s.dequote then s.rest else SkipOne(if s.skip then SkipOne(s.rest) else s.rest)
  }

  datatype Field = Field(text: Bytes, rest: Bytes) | NoField

  function ReadLoop(s: Scan): (f: Field)
    ensures f.Field? ==> |f.rest| <= |s.rest|
    decreases |s.rest|, s.left
  {
    if s.left == 0 then Field(s.text, Closing(s))
    else
      match ReadTurn(s)
      case Eof => NoField
      case Break(t) => Field(t.text, t.rest)
      case Next(t) => ReadLoop(t)
  }

  function Fresh(rest: Bytes, len: nat): Scan {
    Scan(rest, len, true, false, false, [])
  }

  /** read_string of len characters. */
  function ReadString(rest: Bytes, len: nat): (f: Field)
    ensures f.Field? ==> |f.rest| <= |rest|
  {
    ReadLoop(Fresh(rest, len))
  }

  // ----- reading numbers -----

  /** fscanf("%u, %u, ..., "): the numbers read before it stopped, and what is left. */
  datatype Numbers = Numbers(values: seq<nat>, rest: Bytes)

  function ScanNumbers(rest: Bytes, n: nat): (r: Numbers)
    ensures |r.values| <= n && |r.rest| <= |rest|
    decreases n
  {
    if n == 0 then Numbers([], rest)
    else
      match ScanUint(rest)
      case NoNumber => Numbers([], rest)
      case Number(v, after) =>
        if after != [] && after[0] == COMMA then
          var more := ScanNumbers(SkipSpace(after[1..]), n - 1);
          Numbers([v] + more.values, more.rest)
        else Numbers([v], after)
  }

  // ----- reading an item -----

  datatype ReadResult = ReadItem(item: Item, rest: Bytes) | NoItem

  /** The end of a line: an optional CR, then one character (a line feed, or a warning). */
  function EndOfLine(s: Bytes): (r: Bytes)
    ensures |r| <= |s|
  {
    SkipOne(if s != [] && s[0] == CR then s[1..] else s)
  }

  /** The data column, given the header and the key; rest starts at the delimiter. */
  function ReadData(v: seq<nat>, key: Bytes, rest: Bytes): (r: ReadResult)
    requires |v| == 8
    ensures r.ReadItem? ==> |r.rest| < |rest|
  {
    if rest == [] || rest[0] != COMMA then NoItem
    else
      var wanted := U32(v[3] as int - 2);
      var f := ReadString(SkipOne(rest[1..]), wanted);
      if f.NoField? || |f.text| != wanted then NoItem
      else ReadItem(Item(v[0], v[1], v[2], v[4], v[5] % 65536, v[6], key, f.text + CRLF), EndOfLine(f.rest))
  }

  /** read_item; NoItem stands for a NULL result and for the crash on a file that ends inside a key. */
  function Read(rest: Bytes): (r: ReadResult)
    ensures r.ReadItem? ==> |r.rest| < |rest|
  {
    var header := ScanNumbers(rest, 8);
    if |header.values| < 8 then NoItem
    else
      match ReadString(header.rest, header.values[7])
      case NoField => NoItem
      case Field(key, after) => ReadData(header.values, key, after)
  }

  // ----- writing -----

  /** get_quoted_str: every double quote is doubled. */
  function Quoted(s: Bytes): (r: Bytes)
    ensures |s| <= |r| <= 2 * |s|
  {
    if s == [] then [] else (if s[0] == QUOTE then [QUOTE, QUOTE] else [s[0]]) + Quoted(s[1..])
  }

  function NumbersText(ns: seq<nat>): Bytes {
    if ns == [] then [] else Dec(ns[0]) + ([COMMA, SPACE] + NumbersText(ns[1..]))
  }

  function HeaderOf(i: Item): (ns: seq<nat>)
    ensures |ns| == 8
  {
    [i.dumpflags, i.time, i.exptime, |i.data|, i.nsuffix, i.flags, i.clsid, |i.key|]
  }

  /** The text of a quoted column without its opening quote. */
  function Column(text: Bytes, rest: Bytes): Bytes {
    [QUOTE] + (text + ([QUOTE] + rest))
  }

  /** What write_item puts into the file; the key is printed up to its first NUL. */
  function Line(i: Item): Bytes
    requires |i.data| >= 2
  {
    NumbersText(HeaderOf(i)) +
    Column(CString(Quoted(i.key)), [COMMA, SPACE] + Column(Quoted(i.data[..|i.data| - 2]), [LF]))
  }

  /** The C integer ranges of a memcache_item whose data ends in CRLF. */
  predicate InRange(i: Item) {
    && i.dumpflags < TWO_32 && i.time < TWO_32 && i.exptime < TWO_32 && i.nsuffix < TWO_32
    && i.flags < 65536 && i.clsid < TWO_32
    && |i.key| < TWO_31 / 2 && 2 <= |i.data| < TWO_31 / 2 && i.data[|i.data| - 2..] == CRLF
  }

  // ----- a quoted field reads back -----

  function Inside(rest: Bytes, left: nat, text: Bytes): Scan {
    Scan(rest, left, false, true, false, text)
  }

  /** One quoted character, with more wanted after it. */
  lemma SkimOne(c: byte, post: Bytes, n: nat, text: Bytes)
    requires n >= 1
    ensures ReadLoop(Inside(Quoted([c]) + post, n + 1, text)) == ReadLoop(Inside(post, n, text + [c]))
  {
    var s := Inside(Quoted([c]) + post, n + 1, text);
    if c == QUOTE {
      assert s.rest == [QUOTE] + ([QUOTE] + post);
      var s1 := Scan([QUOTE] + post, n, false, true, true, text + [c]);
      assert ReadTurn(s) == Next(s1);
      assert ReadTurn(s1) == Next(Inside(post, n, text + [c]));
    } else {
      assert s.rest == [c] + post;
      assert ReadTurn(s) == Next(Inside(post, n, text + [c]));
    }
  }

  lemma QuotedEmpty()
    ensures Quoted([]) == []
  {
  }

  lemma Regroup(a: Bytes, b: Bytes, c: Bytes)
    ensures (a + b) + c == a + (b + c)
  {
  }

  lemma QuotedHead(t: Bytes, post: Bytes)
    requires t != []
    ensures Quoted(t) + post == Quoted([t[0]]) + (Quoted(t[1..]) + post)
  {
    hide Quoted;
    var c, s, none: Bytes := t[0], t[1..], [];
    assert t == [c] + s && [c] == [c] + none;
    QuotedCons(c, s);
    QuotedCons(c, none);
    QuotedEmpty();
    Regroup(Quoted([c]), Quoted(s), post);
  }

  /** Inside quotes, any quoted text is read through whole while more than it is wanted. */
  lemma {:induction false} SkimQuoted(t: Bytes, post: Bytes, n: nat, text: Bytes)
    requires n >= 1
    ensures ReadLoop(Inside(Quoted(t) + post, n + |t|, text)) == ReadLoop(Inside(post, n, text + t))
    decreases |t|
  {
    hide ReadLoop, Quoted;
    if t == [] {
      QuotedEmpty();
      assert Quoted(t) + post == post && text + t == text;
    } else {
      QuotedHead(t, post);
      SkimOne(t[0], Quoted(t[1..]) + post, n + |t| - 1, text);
      SkimQuoted(t[1..], post, n, text + [t[0]]);
      assert text + [t[0]] + t[1..] == text + t;
    }
  }

  lemma {:induction false} QuotedSnoc(t: Bytes, c: byte)
    ensures Quoted(t + [c]) == Quoted(t) + Quoted([c])
    decreases |t|
  {
    if t == [] {
      assert t + [c] == [c];
    } else {
      assert (t + [c])[1..] == t[1..] + [c];
      QuotedSnoc(t[1..], c);
    }
  }

  /** The last wanted character and the closing quote. */
  lemma CloseQuoted(c: byte, rest: Bytes, text: Bytes)
    ensures ReadLoop(Inside(Quoted([c]) + ([QUOTE] + rest), 1, text)) == Field(text + [c], rest)
  {
    var s := Inside(Quoted([c]) + ([QUOTE] + rest), 1, text);
    if c == QUOTE {
      assert s.rest == [QUOTE] + ([QUOTE] + ([QUOTE] + rest));
    } else {
      assert s.rest == [c] + ([QUOTE] + rest);
    }
    var s1 := Scan(s.rest[1..], 0, false, true, c == QUOTE, text + [c]);
    assert ReadTurn(s) == Next(s1);
    assert Closing(s1) == rest;
  }

  lemma OpenQuoted(text: Bytes, rest: Bytes, n: nat)
    requires n >= 1
    ensures ReadString(Column(text, rest), n) == ReadLoop(Inside(text + ([QUOTE] + rest), n, []))
  {
    var s := Fresh(Column(text, rest), n);
    assert ReadTurn(s) == Next(Inside(text + ([QUOTE] + rest), n, []));
  }

  /** A non-empty quoted field reads back exactly, whatever bytes it holds, and the rest is untouched. */
  lemma FieldReadsBack(t: Bytes, rest: Bytes)
    requires t != []
    ensures ReadString(Column(Quoted(t), rest), |t|) == Field(t, rest)
  {
    hide *;
    var front, c := SplitLast(t);
    SnocReadsBack(front, c, rest);
  }

  lemma SplitLast(t: Bytes) returns (front: Bytes, c: byte)
    requires t != []
    ensures t == front + [c]
  {
    front, c := t[..|t| - 1], t[|t| - 1];
  }

  lemma SnocReadsBack(front: Bytes, c: byte, rest: Bytes)
    ensures ReadString(Column(Quoted(front + [c]), rest), |front| + 1) == Field(front + [c], rest)
  {
    hide *;
    QuotedSnoc(front, c);
    OpenQuoted(Quoted(front + [c]), rest, |front| + 1);
    Regroup(Quoted(front), Quoted([c]), [QUOTE] + rest);
    var none: Bytes := [];
    SkimQuoted(front, Quoted([c]) + ([QUOTE] + rest), 1, none);
    assert none + front == front;
    CloseQuoted(c, rest, front);
  }

  // ----- the numbers read back -----

  lemma NumbersHead(ns: seq<nat>, post: Bytes)
    requires post != [] && !IsSpace(post[0])
    ensures var s := NumbersText(ns) + post; s != [] && !IsSpace(s[0])
  {
    if ns != [] {
      hide Dec;
      assert IsDigit(Dec(ns[0])[0]);
      assert (NumbersText(ns) + post)[0] == Dec(ns[0])[0];
    } else {
      assert NumbersText(ns) + post == post;
    }
  }

  lemma NumbersTextHead(ns: seq<nat>, post: Bytes)
    requires ns != []
    ensures NumbersText(ns) + post == Dec(ns[0]) + ([COMMA, SPACE] + (NumbersText(ns[1..]) + post))
  {
    hide Dec;
  }

  lemma ScanNumbersStep(rest: Bytes, n: nat, v: nat, after: Bytes)
    requires n > 0 && ScanUint(rest) == Number(v, after) && after != [] && after[0] == COMMA
    ensures var more := ScanNumbers(SkipSpace(after[1..]), n - 1);
            ScanNumbers(rest, n) == Numbers([v] + more.values, more.rest)
  {
    hide ScanUint, SkipSpace;
  }

  lemma NumberAndRest(ns: seq<nat>, tail: Bytes, post: Bytes)
    requires ns != [] && ns[0] < TWO_32 && tail != [] && !IsSpace(tail[0])
    requires ScanNumbers(tail, |ns| - 1) == Numbers(ns[1..], post)
    ensures ScanNumbers(Dec(ns[0]) + ([COMMA, SPACE] + tail), |ns|) == Numbers(ns, post)
  {
    hide Dec, ScanUint, SkipSpace, ScanNumbers;
    var after := [COMMA, SPACE] + tail;
    assert after[0] == COMMA && after[1..] == [SPACE] + tail;
    UintReadsBack(ns[0], after);
    SkipOneSpace(tail);
    ScanNumbersStep(Dec(ns[0]) + after, |ns|, ns[0], after);
    assert [ns[0]] + ns[1..] == ns;
  }

  lemma NoNumbers(rest: Bytes)
    ensures ScanNumbers(rest, 0) == Numbers([], rest)
  {
  }

  lemma {:induction false} NumbersReadBack(ns: seq<nat>, post: Bytes)
    requires forall i :: 0 <= i < |ns| ==> ns[i] < TWO_32
    requires post != [] && !IsSpace(post[0])
    ensures ScanNumbers(NumbersText(ns) + post, |ns|) == Numbers(ns, post)
    decreases |ns|
  {
    hide ScanNumbers, Dec;
    if ns == [] {
      assert NumbersText(ns) + post == post;
      NoNumbers(post);
    } else {
      hide NumbersText;
      NumbersTextHead(ns, post);
      NumbersHead(ns[1..], post);
      NumbersReadBack(ns[1..], post);
      NumberAndRest(ns, NumbersText(ns[1..]) + post, post);
    }
  }

  // ----- an item reads back -----

  /** A line followed by more of the file. */
  function LineThen(i: Item, post: Bytes): Bytes
    requires |i.data| >= 2
  {
    NumbersText(HeaderOf(i)) + Column(CString(Quoted(i.key)), DataThen(i, post))
  }

  function DataThen(i: Item, post: Bytes): Bytes
    requires |i.data| >= 2
  {
    [COMMA, SPACE] + Column(Quoted(i.data[..|i.data| - 2]), [LF] + post)
  }

  lemma ColumnThen(text: Bytes, a: Bytes, b: Bytes)
    ensures Column(text, a) + b == Column(text, a + b)
  {
  }

  lemma LineThenMore(i: Item, post: Bytes)
    requires |i.data| >= 2
    ensures Line(i) + post == LineThen(i, post)
  {
    hide Column, Quoted, CString, HeaderOf, NumbersText;
    var q := Quoted(i.data[..|i.data| - 2]);
    var d := Column(q, [LF]);
    var k := CString(Quoted(i.key));
    Regroup(NumbersText(HeaderOf(i)), Column(k, [COMMA, SPACE] + d), post);
    ColumnThen(k, [COMMA, SPACE] + d, post);
    Regroup([COMMA, SPACE], d, post);
    ColumnThen(q, [LF], post);
  }

  /** The data column reads back. */
  lemma DataReadsBack(i: Item, post: Bytes)
    requires InRange(i) && |i.data| > 2
    ensures ReadData(HeaderOf(i), i.key, DataThen(i, post)) == ReadItem(i, post)
  {
    var d, rest := i.data[..|i.data| - 2], DataThen(i, post);
    DataStarts(i, post);
    HeaderFields(i);
    FieldReadsBack(d, [LF] + post);
    LineEnds(post);
    assert d + CRLF == i.data;
    hide Quoted, ReadString, Column, DataThen, SkipOne, EndOfLine, HeaderOf, U32, InRange;
    assert ReadString(SkipOne(rest[1..]), |d|) == Field(d, [LF] + post);
  }

  lemma DataStarts(i: Item, post: Bytes)
    requires |i.data| >= 2
    ensures var rest := DataThen(i, post);
            && rest != [] && rest[0] == COMMA
            && SkipOne(rest[1..]) == Column(Quoted(i.data[..|i.data| - 2]), [LF] + post)
  {
    hide Quoted, Column;
    var c := Column(Quoted(i.data[..|i.data| - 2]), [LF] + post);
    var rest := DataThen(i, post);
    assert rest[1..] == [SPACE] + c;
  }

  lemma HeaderFields(i: Item)
    requires InRange(i)
    ensures var v := HeaderOf(i);
            && U32(v[3] as int - 2) == |i.data| - 2
            && i == Item(v[0], v[1], v[2], v[4], v[5] % 65536, v[6], i.key, i.data)
  {
  }

  lemma LineEnds(post: Bytes)
    ensures EndOfLine([LF] + post) == post
  {
  }

  lemma {:induction false} QuotedNoNul(s: Bytes)
    requires NUL !in s
    ensures NUL !in Quoted(s)
    decreases |s|
  {
    if s != [] {
      QuotedNoNul(s[1..]);
    }
  }

  /** Cutting at a NUL before or after quoting is the same. */
  lemma {:induction false} CutQuoted(s: Bytes)
    ensures CString(Quoted(s)) == Quoted(CString(s))
    decreases |s|
  {
    if s == [] {
    } else {
      hide *;
      var c, t := s[0], s[1..];
      assert s == [c] + t;
      CutQuoted(t);
      CutCons(c, t);
    }
  }

  lemma CutCons(c: byte, t: Bytes)
    requires CString(Quoted(t)) == Quoted(CString(t))
    ensures CString(Quoted([c] + t)) == Quoted(CString([c] + t))
  {
    hide CString, Quoted;
    QuotedCons(c, t);
    CutHead(c, t);
    if c == NUL {
      CutHead(c, Quoted(t));
      QuotedEmpty();
    } else {
      QuotedCons(c, CString(t));
      if c == QUOTE {
        CutPair(Quoted(t));
      } else {
        CutHead(c, Quoted(t));
      }
    }
  }

  lemma CutPair(q: Bytes)
    ensures CString([QUOTE, QUOTE] + q) == [QUOTE, QUOTE] + CString(q)
  {
    hide CString, Quoted;
    CutHead(QUOTE, q);
    CutHead(QUOTE, [QUOTE] + q);
    assert [QUOTE] + ([QUOTE] + q) == [QUOTE, QUOTE] + q;
    assert [QUOTE] + ([QUOTE] + CString(q)) == [QUOTE, QUOTE] + CString(q);
  }

  lemma CutHead(c: byte, s: Bytes)
    ensures CString([c] + s) == if c == NUL then [] else [c] + CString(s)
  {
    assert ([c] + s)[1..] == s;
  }

  lemma QuotedCons(c: byte, s: Bytes)
    ensures Quoted([c] + s) == (if c == QUOTE then [QUOTE, QUOTE] else [c]) + Quoted(s)
  {
    assert ([c] + s)[1..] == s;
  }

  /** A column that closes before the wanted length: what is left does not start with a comma. */
  lemma ShortColumn(text: Bytes, m: nat, tail: Bytes)
    requires m >= 1
    ensures var f := ReadLoop(Inside([QUOTE] + ([COMMA, SPACE] + ([QUOTE] + tail)), m, text));
            f.Field? && f.rest != [] && f.rest[0] != COMMA
  {
    var after := [COMMA, SPACE] + ([QUOTE] + tail);
    var s := Inside([QUOTE] + after, m, text);
    var s1 := Scan(after, m - 1, false, true, true, text + [QUOTE]);
    assert ReadTurn(s) == Next(s1);
    if m == 1 {
      assert after[1..][1..] == [QUOTE] + tail;
    } else {
      assert ReadTurn(s1).Break? && ReadTurn(s1).s.rest == after[1..];
    }
  }

  lemma ShortKey(key: Bytes, tail: Bytes)
    requires NUL in key
    ensures var f := ReadString(Column(CString(Quoted(key)), [COMMA, SPACE] + ([QUOTE] + tail)), |key|);
            f.Field? && f.rest != [] && f.rest[0] != COMMA
  {
    hide ReadLoop, ReadString, Quoted, CString, Column;
    var k := CString(key);
    assert |k| == |key| ==> k == key;
    var rest := [COMMA, SPACE] + ([QUOTE] + tail);
    CutQuoted(key);
    OpenQuoted(Quoted(k), rest, |key|);
    var none: Bytes := [];
    SkimQuoted(k, [QUOTE] + rest, |key| - |k|, none);
    ShortColumn(none + k, |key| - |k|, tail);
  }

  lemma HeaderReadsBack(i: Item, post: Bytes)
    requires InRange(i) && post != [] && !IsSpace(post[0])
    ensures ScanNumbers(NumbersText(HeaderOf(i)) + post, 8) == Numbers(HeaderOf(i), post)
  {
    hide NumbersText, ScanNumbers;
    NumbersReadBack(HeaderOf(i), post);
  }

  predicate Readable(i: Item) {
    i.key != [] && NUL !in i.key
  }

  /** The key column reads back exactly when the key is non-empty and free of NUL. */
  lemma KeyReadsBack(i: Item, post: Bytes)
    requires InRange(i)
    ensures var f := ReadString(Column(CString(Quoted(i.key)), DataThen(i, post)), |i.key|);
            && (Readable(i) ==> f == Field(i.key, DataThen(i, post)))
            && (!Readable(i) ==> f.Field? && f.rest != [] && f.rest[0] != COMMA)
  {
    hide ReadLoop, Quoted, CString;
    if Readable(i) {
      QuotedNoNul(i.key);
      CStringWhole(Quoted(i.key));
      FieldReadsBack(i.key, DataThen(i, post));
    } else if i.key == [] {
      EmptyField(Column(CString(Quoted(i.key)), DataThen(i, post)));
    } else {
      ShortKey(i.key, Quoted(i.data[..|i.data| - 2]) + ([QUOTE] + ([LF] + post)));
    }
  }

  lemma EmptyField(rest: Bytes)
    ensures ReadString(rest, 0) == Field([], rest)
  {
  }

  /** A written line reads back as the item, leaving exactly the rest, if and only if its key is readable. */
  lemma LineReadsBack(i: Item, post: Bytes)
    requires InRange(i) && |i.data| > 2
    ensures Readable(i) ==> Read(Line(i) + post) == ReadItem(i, post)
    ensures !Readable(i) ==> Read(Line(i) + post) == NoItem
  {
    hide Line, NumbersText, ScanNumbers, ReadString, CString, Quoted, DataThen;
    LineThenMore(i, post);
    HeaderReadsBack(i, Column(CString(Quoted(i.key)), DataThen(i, post)));
    KeyReadsBack(i, post);
    DataReadsBack(i, post);
  }

  /** An item with an empty key is written without complaint and refused by the reader. */
  lemma EmptyKeyRefused(post: Bytes)
    ensures var i := Item(0, 0, 0, 0, 0, 0, [], [120, CR, LF]); InRange(i) && Read(Line(i) + post) == NoItem
  {
    hide Line, Read;
    var i := Item(0, 0, 0, 0, 0, 0, [], [120, CR, LF]);
    assert i.data[1..] == CRLF;
    LineReadsBack(i, post);
  }

  // ----- a whole file -----

  function Lines(items: seq<Item>): Bytes
    requires forall i :: 0 <= i < |items| ==> |items[i].data| >= 2
  {
    if items == [] then [] else Line(items[0]) + Lines(items[1..])
  }

  /** Reading until read_item returns NULL. */
  function ReadAll(rest: Bytes): seq<Item>
    decreases |rest|
  {
    match Read(rest)
    case NoItem => []
    case ReadItem(i, after) => [i] + ReadAll(after)
  }

  lemma ReadNothing()
    ensures Read([]) == NoItem
  {
    assert SkipSpace([]) == [];
    assert ScanUint([]) == NoNumber;
    var none: Bytes := [];
    assert ScanNumbers(none, 8).values == [];
  }

  /** Every list of written items with readable keys is read back, item for item, to the end of the file. */
  lemma {:induction false} LinesReadBack(items: seq<Item>)
    requires forall i :: 0 <= i < |items| ==> InRange(items[i]) && |items[i].data| > 2 && Readable(items[i])
    ensures ReadAll(Lines(items)) == items
    decreases |items|
  {
    hide Read, Line;
    if items == [] {
      ReadNothing();
    } else {
      LineReadsBack(items[0], Lines(items[1..]));
      LinesReadBack(items[1..]);
    }
  }
}
