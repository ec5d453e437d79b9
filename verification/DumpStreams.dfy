/** The dump file's reader and writer objects. */
module DumpStreams {
  import opened ByteStrings
  import opened DumpFile
  import opened Scanf

  const EXPECTED: Bytes := Ascii("dumpflags, time, exptime")
  const MIDDLE: Bytes := Ascii(", nbytes, nsuffix, it_flags")
  const LAST: Bytes := Ascii(", clsid, nkey, key, data")
  const COLUMNS: Bytes := EXPECTED + MIDDLE + LAST
  const HEADER: Bytes := COLUMNS + [LF]

  /** What fgets stores: at most n characters, up to and including the first line feed. */
  function FirstLine(file: Bytes, n: nat): (line: Bytes)
    ensures line <= file && |line| <= n
  {
    if file == [] || n == 0 then []
    else if file[0] == LF then [LF]
    else [file[0]] + FirstLine(file[1..], n - 1)
  }

  lemma {:induction false} LineFits(line: Bytes, rest: Bytes, n: nat)
    requires LF !in line && |line| < n
    ensures FirstLine(line + [LF] + rest, n) == line + [LF]
    decreases |line|
  {
    if line != [] {
      assert (line + [LF] + rest)[1..] == line[1..] + [LF] + rest;
      LineFits(line[1..], rest, n - 1);
      assert [line[0]] + (line[1..] + [LF]) == line + [LF];
    }
  }

  /** What fgets still adds to a line. */
  function More(line: Bytes, rest: Bytes, n: nat): Bytes {
    if line != [] && line[|line| - 1] == LF then [] else FirstLine(rest, n)
  }

  lemma NoMore(rest: Bytes)
    ensures FirstLine(rest, 0) == []
    ensures forall n :: FirstLine([], n) == []
  {
  }

  lemma MoreStep(line: Bytes, rest: Bytes, n: nat)
    requires n > 0 && rest != [] && (line == [] || line[|line| - 1] != LF)
    ensures line + More(line, rest, n) == line + [rest[0]] + More(line + [rest[0]], rest[1..], n - 1)
  {
  }

  /** What open_file expects of the first line. */
  predicate Opens(file: Bytes) {
    file != [] && EXPECTED <= FirstLine(file, 78)
  }

  function Body(file: Bytes): Bytes {
    file[|FirstLine(file, 78)|..]
  }

  lemma HeaderOpens(rest: Bytes)
    ensures Opens(HEADER + rest) && Body(HEADER + rest) == rest
  {
    ColumnsFit();
    LineFits(COLUMNS, rest, 78);
    assert EXPECTED <= COLUMNS <= HEADER;
  }

  lemma ColumnsFit()
    ensures |COLUMNS| == 75 && LF !in COLUMNS
  {
    assert LF !in EXPECTED;
    assert LF !in MIDDLE;
    assert LF !in LAST;
  }

  /** A dump file opens, and every item written to it is read back in order. */
  lemma DumpRoundTrip(items: seq<Item>)
    requires forall i :: 0 <= i < |items| ==> InRange(items[i]) && |items[i].data| > 2 && Readable(items[i])
    ensures var file := HEADER + Lines(items); Opens(file) && ReadAll(Body(file)) == items
  {
    hide Opens, Body, Lines, ReadAll;
    HeaderOpens(Lines(items));
    LinesReadBack(items);
  }

  class FileWriter {
    var file: Bytes

    /** file_writer::open_file. */
    constructor ()
      ensures file == HEADER
    {
      file := HEADER;
    }

    /** file_writer::get_quoted_str: the copy never leaves a buffer of twice the length. */
    static method GetQuotedStr(s: Bytes) returns (q: Bytes)
      ensures q == Quoted(s)
    {
      if QUOTE !in s {
        NothingToQuote(s);
        return s;
      }
      var newStr := new byte[2 * |s|];
      var i, d := 0, 0;
      while i < |s|
        invariant 0 <= i <= |s| && 0 <= d <= 2 * i
        invariant newStr[..d] == Quoted(s[..i])
      {
        hide Quoted;
        QuotedUpTo(s, i);
        d := CopyQuoted(newStr, d, s[i]);
        i := i + 1;
      }
      assert s[..i] == s;
      q := newStr[..d];
    }

    /** One character of the copy. */
    static method CopyQuoted(newStr: array<byte>, d: nat, c: byte) returns (e: nat)
      requires d + 2 <= newStr.Length
      modifies newStr
      ensures d < e <= d + 2
      ensures newStr[..e] == old(newStr[..d]) + if c == QUOTE then [QUOTE, QUOTE] else [c]
    {
      e := d;
      newStr[e] := c;
      if c == QUOTE {
        e := e + 1;
        newStr[e] := QUOTE;
      }
      e := e + 1;
    }

    /** file_writer::write_item: fwrite of an empty data column reports failure. */
    method WriteItem(i: Item) returns (ok: bool)
      requires |i.data| >= 2
      modifies this
      ensures ok <==> |i.data| > 2
      ensures ok ==> file == old(file) + Line(i)
      ensures old(file) <= file
    {
      hide Line, Quoted, CString, NumbersText, HeaderOf;
      var quotedKey := GetQuotedStr(i.key);
      var quotedData := GetQuotedStr(i.data[..|i.data| - 2]);
      file := file + NumbersText(HeaderOf(i)) + [QUOTE] + CString(quotedKey) + [QUOTE, COMMA, SPACE, QUOTE];
      if |quotedData| == 0 {
        return false;
      }
      file := file + quotedData;
      file := file + [QUOTE, LF];
      ok := true;
      LineParts(old(file), i);
    }
  }

  lemma QuotedUpTo(s: Bytes, i: nat)
    requires i < |s|
    ensures Quoted(s[..i + 1]) == Quoted(s[..i]) + if s[i] == QUOTE then [QUOTE, QUOTE] else [s[i]]
  {
    assert s[..i + 1] == s[..i] + [s[i]];
    QuotedSnoc(s[..i], s[i]);
  }

  lemma {:induction false} NothingToQuote(s: Bytes)
    requires QUOTE !in s
    ensures Quoted(s) == s
    decreases |s|
  {
    if s != [] {
      NothingToQuote(s[1..]);
    }
  }

  lemma LineParts(before: Bytes, i: Item)
    requires |i.data| >= 2
    ensures before + NumbersText(HeaderOf(i)) + [QUOTE] + CString(Quoted(i.key)) + [QUOTE, COMMA, SPACE, QUOTE]
            + Quoted(i.data[..|i.data| - 2]) + [QUOTE, LF] == before + Line(i)
  {
    hide Quoted, CString, NumbersText, HeaderOf;
  }

  class FileReader {
    var rest: Bytes

    /** The file as fopen leaves it. */
    constructor (file: Bytes)
      ensures rest == file
    {
      rest := file;
    }

    /** fgets of at most size characters. */
    method Gets(size: nat) returns (line: Bytes)
      modifies this
      ensures line == FirstLine(old(rest), size)
      ensures rest == old(rest)[|line|..]
    {
      hide FirstLine;
      line := [];
      var n := size;
      ghost var file := rest;
      NoMore(rest);
      while n > 0 && rest != [] && (line == [] || line[|line| - 1] != LF)
        invariant |line| + n == size && |line| <= |file| && rest == file[|line|..]
        invariant FirstLine(file, size) == line + More(line, rest, n)
        decreases n
      {
        MoreStep(line, rest, n);
        line, rest, n := line + [rest[0]], rest[1..], n - 1;
      }
      NoMore(rest);
    }

    /** file_reader::open_file after fopen: fgets into an 80-byte buffer, then the comparison. */
    method OpenFile() returns (ok: bool)
      modifies this
      ensures ok <==> Opens(old(rest))
      ensures rest == Body(old(rest))
    {
      hide FirstLine;
      var line := Gets(78);
      ok := line != [] && EXPECTED <= line;
    }

    /** fgetc; None is EOF. */
    method Getc() returns (c: Option<byte>)
      modifies this
      ensures old(rest) == [] ==> c == None && rest == []
      ensures old(rest) != [] ==> c == Some(old(rest)[0]) && rest == old(rest)[1..]
    {
      if rest == [] {
        return None;
      }
      c := Some(rest[0]);
      rest := rest[1..];
    }

    /** file_reader::read_string. */
    method ReadField(len: nat) returns (text: Option<Bytes>)
      modifies this
      ensures ReadString(old(rest), len) == match text case Some(t) => Field(t, rest) case None => NoField
    {
      hide ReadLoop;
      var left, skipQuote, firstByte, dequote, d: Bytes := len, false, true, false, [];
      ghost var goal := ReadLoop(Fresh(rest, len));
      while left > 0
        invariant goal == ReadLoop(Scan(rest, left, firstByte, dequote, skipQuote, d))
        invariant firstByte ==> !dequote && !skipQuote
        invariant skipQuote ==> dequote
        decreases |rest|, left
      {
        ghost var s := Scan(rest, left, firstByte, dequote, skipQuote, d);
        var before := rest;
        Unfold(s);
        var c := Getc();
        if firstByte {
          firstByte := false;
          if c == Some(QUOTE) {
            dequote := true;
            continue;
          }
        }
        if c == None {
          return None;
        }
        if skipQuote && c.value != QUOTE {
          break;
        }
        if c.value == QUOTE {
          if skipQuote {
            skipQuote := false;
            continue;
          }
          if dequote {
            skipQuote := true;
          } else {
            break;
          }
        }
        if (c.value == COMMA || c.value == CR || c.value == LF) && !dequote {
          rest := before;
          break;
        }
        d := d + [c.value];
        left := left - 1;
      }
      if left == 0 {
        Unfold(Scan(rest, left, firstByte, dequote, skipQuote, d));
        if dequote {
          if skipQuote {
            var _ := Getc();
          }
          var _ := Getc();
        }
      }
      text := Some(d);
    }

    /** file_reader::read_item. */
    method ReadItem() returns (item: Option<Item>)
      modifies this
      ensures Read(old(rest)) == match item case Some(i) => DumpFile.ReadItem(i, rest) case None => NoItem
    {
      hide ScanNumbers, ReadString;
      var header := ScanNumbers(rest, 8);
      rest := header.rest;
      if |header.values| < 8 {
        return None;
      }
      var v := header.values;
      var key := ReadField(v[7]);
      if key == None {
        return None;
      }
      var c := Getc();
      if c != Some(COMMA) {
        return None;
      }
      var _ := Getc();
      var wanted := U32(v[3] as int - 2);
      var data := ReadField(wanted);
      if data == None || |data.value| != wanted {
        return None;
      }
      c := Getc();
      if c == Some(CR) {
        c := Getc();
      }
      item := Some(Item(v[0], v[1], v[2], v[4], v[5] % 65536, v[6], key.value, data.value + CRLF));
    }
  }

  lemma Unfold(s: Scan)
    ensures s.left == 0 ==> ReadLoop(s) == Field(s.text, Closing(s))
    ensures s.left > 0 ==>
              ReadLoop(s) == match ReadTurn(s)
                             case Eof => NoField
                             case Break(t) => Field(t.text, t.rest)
                             case Next(t) => ReadLoop(t)
  {
  }
}
