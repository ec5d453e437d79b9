/** The dump file as others see it: the exact form of a line, lines ended by CRLF, fields without quotes, and what the
    reader refuses. */
module DumpFormat {
  import opened ByteStrings
  import opened DumpFile
  import opened Scanf

  /** A number and what follows it. */
  function Num(n: nat, rest: Bytes): Bytes {
    Dec(n) + (Ascii(", ") + rest)
  }

  /** A text in quotes and what follows it. */
  function InQuotes(text: Bytes, rest: Bytes): Bytes {
    Ascii("\"") + (text + (Ascii("\"") + rest))
  }

  /** A line: dumpflags, time, exptime, nbytes, nsuffix, it_flags, clsid and nkey in decimal, then the key and the data
      without its CRLF in quotes, all separated by a comma and a blank, and a line feed. */
  lemma LineFormat(i: Item)
    requires |i.data| >= 2
    ensures Line(i)
         == Num(i.dumpflags, Num(i.time, Num(i.exptime, Num(|i.data|,
              Num(i.nsuffix, Num(i.flags, Num(i.clsid, Num(|i.key|,
                InQuotes(CString(Quoted(i.key)),
                  Ascii(", ") + InQuotes(Quoted(i.data[..|i.data| - 2]), Ascii("\n")))))))))))
  {
    hide Num, NumbersText, Quoted, CString;
    var ns := HeaderOf(i);
    var key, data := CString(Quoted(i.key)), Quoted(i.data[..|i.data| - 2]);
    assert Ascii(", ") == [COMMA, SPACE] && Ascii("\"") == [QUOTE] && Ascii("\n") == [LF];
    var rest := InQuotes(key, Ascii(", ") + InQuotes(data, Ascii("\n")));
    assert Column(key, [COMMA, SPACE] + Column(data, [LF])) == rest;
    assert ns[0..] == ns;
    NumberThen(ns, 0, rest);
    NumberThen(ns, 1, rest);
    NumberThen(ns, 2, rest);
    NumberThen(ns, 3, rest);
    NumberThen(ns, 4, rest);
    NumberThen(ns, 5, rest);
    NumberThen(ns, 6, rest);
    NumberThen(ns, 7, rest);
    NoMoreNumbers(ns[8..], rest);
  }

  lemma NumberThen(ns: seq<nat>, k: nat, rest: Bytes)
    requires k < |ns|
    ensures NumbersText(ns[k..]) + rest == Num(ns[k], NumbersText(ns[k + 1..]) + rest)
  {
    hide Dec;
    assert ns[k..][1..] == ns[k + 1..] && Ascii(", ") == [COMMA, SPACE];
  }

  lemma NoMoreNumbers(ns: seq<nat>, rest: Bytes)
    requires |ns| == 0
    ensures NumbersText(ns) + rest == rest
  {
  }

  /** The data column of a line that ends in CRLF reads back as well. */
  lemma CrlfLineEnds(i: Item, post: Bytes)
    requires InRange(i) && |i.data| > 2
    ensures ReadData(HeaderOf(i), i.key, [COMMA, SPACE] + Column(Quoted(i.data[..|i.data| - 2]), CRLF + post))
         == ReadItem(i, post)
  {
    var d := i.data[..|i.data| - 2];
    CrlfCut(i);
    hide *;
    HeaderFields(i);
    FieldReadsBack(d, CRLF + post);
    CrlfEnds(post);
    DataTaken(HeaderOf(i), i.key, Column(Quoted(d), CRLF + post), d, CRLF + post);
  }

  lemma CrlfCut(i: Item)
    requires InRange(i)
    ensures |i.data| >= 2 && i.data[..|i.data| - 2] + CRLF == i.data
  {
  }

  /** One data column: the field, and the rest of the line. */
  lemma DataTaken(v: seq<nat>, key: Bytes, c: Bytes, d: Bytes, after: Bytes)
    requires |v| == 8 && U32(v[3] as int - 2) == |d| && ReadString(c, |d|) == Field(d, after)
    ensures ReadData(v, key, [COMMA, SPACE] + c)
         == ReadItem(Item(v[0], v[1], v[2], v[4], v[5] % 65536, v[6], key, d + CRLF), EndOfLine(after))
  {
    BlankSkipped(c);
    hide ReadString, SkipOne, EndOfLine, U32;
    assert ([COMMA, SPACE] + c)[1..] == [SPACE] + c;
  }

  lemma CrlfEnds(post: Bytes)
    ensures EndOfLine(CRLF + post) == post
  {
    assert (CRLF + post)[2..] == post;
  }

  lemma BlankSkipped(c: Bytes)
    ensures SkipOne([SPACE] + c) == c
  {
  }

  // ----- fields without quotes -----

  predicate Unquoted(t: Bytes) {
    forall k :: 0 <= k < |t| ==> t[k] != QUOTE && t[k] != COMMA && t[k] != CR && t[k] != LF
  }

  lemma {:induction false} UnquotedLoop(t: Bytes, post: Bytes, first: bool, text: Bytes)
    requires Unquoted(t)
    ensures ReadLoop(Scan(t + post, |t|, first, false, false, text)) == Field(text + t, post)
    decreases |t|
  {
    var s := Scan(t + post, |t|, first, false, false, text);
    if t == [] {
      assert t + post == post && text + t == text;
    } else {
      assert (t + post)[1..] == t[1..] + post && (t + post)[0] == t[0];
      assert ReadTurn(s) == Next(Scan(t[1..] + post, |t| - 1, false, false, false, text + [t[0]]));
      UnquotedLoop(t[1..], post, false, text + [t[0]]);
      assert text + [t[0]] + t[1..] == text + t;
    }
  }

  /** A field need not be quoted if it holds no quote, comma or end of line: its characters are taken as they are. */
  lemma UnquotedReadsBack(t: Bytes, post: Bytes)
    requires Unquoted(t)
    ensures ReadString(t + post, |t|) == Field(t, post)
  {
    hide ReadLoop;
    UnquotedLoop(t, post, true, []);
    assert [] + t == t;
  }

  /** A field that ends too early: what is there is returned, and it is shorter than wanted. */
  lemma {:induction false} ShortLoop(t: Bytes, post: Bytes, n: nat, first: bool, text: Bytes)
    requires Unquoted(t) && |t| < n && post != [] && (post[0] == COMMA || post[0] == CR || post[0] == LF)
    ensures ReadLoop(Scan(t + post, n, first, false, false, text)) == Field(text + t, post)
    decreases |t|
  {
    var s := Scan(t + post, n, first, false, false, text);
    if t == [] {
      assert t + post == post && text + t == text;
    } else {
      assert (t + post)[1..] == t[1..] + post && (t + post)[0] == t[0];
      assert ReadTurn(s) == Next(Scan(t[1..] + post, n - 1, false, false, false, text + [t[0]]));
      ShortLoop(t[1..], post, n - 1, false, text + [t[0]]);
      assert text + [t[0]] + t[1..] == text + t;
    }
  }

  // ----- what is refused -----

  /** A line is refused when a number of its header is missing. */
  lemma ShortHeaderRefused(ns: seq<nat>, post: Bytes)
    requires |ns| < 8 && (forall k :: 0 <= k < |ns| ==> ns[k] < TWO_32)
    requires post != [] && !IsSpace(post[0]) && ScanUint(post) == NoNumber
    ensures Read(NumbersText(ns) + post) == NoItem
  {
    hide ScanUint, NumbersText, ReadString;
    HeaderStops(ns, post, 8);
  }

  lemma {:induction false} HeaderStops(ns: seq<nat>, post: Bytes, n: nat)
    requires |ns| < n && (forall k :: 0 <= k < |ns| ==> ns[k] < TWO_32)
    requires post != [] && !IsSpace(post[0]) && ScanUint(post) == NoNumber
    ensures |ScanNumbers(NumbersText(ns) + post, n).values| == |ns|
    decreases |ns|
  {
    hide Dec, ScanUint, SkipSpace;
    if ns == [] {
      assert NumbersText(ns) + post == post;
    } else {
      var rest := NumbersText(ns[1..]) + post;
      var after := [COMMA, SPACE] + rest;
      assert NumbersText(ns) + post == Dec(ns[0]) + after;
      hide NumbersText;
      UintReadsBack(ns[0], after);
      NumberTaken(ns[0], rest, n, after);
      hide *;
      NumbersHead(ns[1..], post);
      HeaderStops(ns[1..], post, n - 1);
    }
  }

  lemma NumberTaken(k: nat, rest: Bytes, n: nat, after: Bytes)
    requires n > 0 && after == [COMMA, SPACE] + rest && ScanUint(Dec(k) + after) == Number(k, after)
    ensures rest != [] && !IsSpace(rest[0]) ==>
              |ScanNumbers(Dec(k) + after, n).values| == 1 + |ScanNumbers(rest, n - 1).values|
  {
    hide Dec, ScanUint, SkipSpace;
    assert after[1..] == [SPACE] + rest;
    if rest != [] && !IsSpace(rest[0]) {
      SkipOneSpace(rest);
    }
  }

  /** It is refused when no comma follows the key, when the file ends inside the data, and when the data is shorter than
      announced. */
  lemma BadDataRefused(v: seq<nat>, key: Bytes, rest: Bytes, t: Bytes, post: Bytes)
    requires |v| == 8 && 2 <= v[3] < TWO_32 && Unquoted(t) && |t| + 2 < v[3]
    requires post != [] && (post[0] == COMMA || post[0] == CR || post[0] == LF)
    ensures rest == [] || rest[0] != COMMA ==> ReadData(v, key, rest) == NoItem
    ensures ReadData(v, key, [COMMA, SPACE]) == NoItem
    ensures ReadData(v, key, [COMMA, SPACE] + (t + post)) == NoItem
  {
    var wanted := v[3] - 2;
    assert U32(v[3] as int - 2) == wanted;
    var none: Bytes := [];
    assert [COMMA, SPACE][1..] == [SPACE] && SkipOne([SPACE]) == none && ReadString(none, wanted) == NoField;
    var r := [COMMA, SPACE] + (t + post);
    assert r[1..] == [SPACE] + (t + post) && SkipOne(r[1..]) == t + post;
    ShortLoop(t, post, wanted, true, none);
    assert none + t == t;
    hide ReadLoop, U32;
  }
}
