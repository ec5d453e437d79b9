/** How arguments may be written on the command line, and that splitting reads them back: bare, in double quotes with
    escapes, in single quotes, and a bare beginning with a quoted rest. */
module CommandText {
  import opened ArbitraryCommand
  import opened ByteStrings
  import opened RespParser
  import opened RespWriter

  // ----- ways to write an argument -----

  const LOWER_DIGITS: Bytes := Ascii("0123456789abcdef")
  const UPPER_DIGITS: Bytes := Ascii("0123456789ABCDEF")

  /** A byte inside double quotes: as it is, as \xHH with digits in either case, by its letter, or after a backslash. */
  datatype Glyph = Raw(b: byte) | Hex(b: byte, upHigh: bool, upLow: bool) | Named(b: byte) | Escaped(b: byte)

  function Digit(n: nat, up: bool): byte
    requires n < 16
  {
    if up then UPPER_DIGITS[n] else LOWER_DIGITS[n]
  }

  /** Alert, backspace, tab, line feed and carriage return have letters of their own. */
  function LetterOf(b: byte): Option<byte> {
    if b == 7 then Some('a' as int)
    else if b == 8 then Some('b' as int)
    else if b == 9 then Some('t' as int)
    else if b == 10 then Some('n' as int)
    else if b == 13 then Some('r' as int)
    else None
  }

  predicate ValidGlyph(g: Glyph) {
    match g
    case Raw(b) => b != NUL && b != QUOTE && b != BACKSLASH
    case Hex(_, _, _) => true
    case Named(b) => LetterOf(b).Some?
    case Escaped(b) =>
      && b != NUL && b != 'n' as int && b != 'r' as int && b != 't' as int
      && b != 'b' as int && b != 'a' as int && b != 'x' as int
  }

  function GlyphText(g: Glyph): (t: Bytes)
    requires ValidGlyph(g)
    ensures |t| >= 1
  {
    match g
    case Raw(b) => [b]
    case Hex(b, upHigh, upLow) => [BACKSLASH, 'x' as int, Digit(b / 16, upHigh), Digit(b % 16, upLow)]
    case Named(b) => [BACKSLASH, LetterOf(b).value]
    case Escaped(b) => [BACKSLASH, b]
  }

  predicate ValidGlyphs(gs: seq<Glyph>) {
    forall i :: 0 <= i < |gs| ==> ValidGlyph(gs[i])
  }

  function DoubleText(gs: seq<Glyph>): Bytes
    requires ValidGlyphs(gs)
  {
    if gs == [] then [] else GlyphText(gs[0]) + DoubleText(gs[1..])
  }

  /** The bytes the glyphs stand for. */
  function Denoted(gs: seq<Glyph>): (t: Bytes)
    ensures |t| == |gs|
  {
    if gs == [] then [] else [gs[0].b] + Denoted(gs[1..])
  }

  /** Inside single quotes only the apostrophe is written with a backslash. */
  function SingleText(text: Bytes): Bytes {
    if text == [] then []
    else (if text[0] == APOSTROPHE then [BACKSLASH, APOSTROPHE] else [text[0]]) + SingleText(text[1..])
  }

  datatype Tail = NoTail | InDouble(gs: seq<Glyph>) | InSingle(text: Bytes)

  /** An argument as written: a bare beginning, then possibly a quoted rest. */
  datatype Field = Field(bare: Bytes, tail: Tail)

  /** Blank, tab, line feed and carriage return end a bare argument. */
  predicate Separator(b: byte) {
    b == ' ' as int || b == '\t' as int || b == '\n' as int || b == '\r' as int
  }

  predicate BareByte(b: byte) {
    !Separator(b) && b != NUL && b != QUOTE && b != APOSTROPHE
  }

  predicate BareText(t: Bytes) {
    forall i :: 0 <= i < |t| ==> BareByte(t[i])
  }

  predicate ValidTail(t: Tail) {
    match t
    case NoTail => true
    case InDouble(gs) => ValidGlyphs(gs)
    case InSingle(text) => NUL !in text && (text == [] || text[|text| - 1] != BACKSLASH)
  }

  predicate ValidField(f: Field) {
    && BareText(f.bare) && ValidTail(f.tail)
    && (if f.bare == [] then !f.tail.NoTail? else !IsSpace(f.bare[0]))
  }

  function TailText(t: Tail): Bytes
    requires ValidTail(t)
  {
    match t
    case NoTail => []
    case InDouble(gs) => [QUOTE] + DoubleText(gs) + [QUOTE]
    case InSingle(text) => [APOSTROPHE] + SingleText(text) + [APOSTROPHE]
  }

  function TailArg(t: Tail): Bytes {
    match t
    case NoTail => []
    case InDouble(gs) => Denoted(gs)
    case InSingle(text) => text
  }

  function FieldText(f: Field): Bytes
    requires ValidField(f)
  {
    f.bare + TailText(f.tail)
  }

  function FieldArg(f: Field): Bytes {
    f.bare + TailArg(f.tail)
  }

  /** Vertical tab and form feed count as blanks too. */
  predicate Blanks(t: Bytes) {
    forall i :: 0 <= i < |t| ==> Separator(t[i]) || t[i] == 11 || t[i] == 12
  }

  /** Blanks between arguments; a bare argument is not ended by a vertical tab or a form feed. */
  predicate Gap(g: Bytes) {
    Blanks(g) && (g != [] ==> Separator(g[0]))
  }

  /** An argument and the blanks behind it. */
  datatype Piece = Piece(field: Field, gap: Bytes)

  predicate ValidPieces(ps: seq<Piece>) {
    && (forall i :: 0 <= i < |ps| ==> ValidField(ps[i].field) && Gap(ps[i].gap))
    && (forall i :: 0 <= i < |ps| - 1 ==> ps[i].gap != [])
  }

  function PiecesText(ps: seq<Piece>): Bytes
    requires ValidPieces(ps)
  {
    if ps == [] then [] else FieldText(ps[0].field) + ps[0].gap + PiecesText(ps[1..])
  }

  function PiecesArgs(ps: seq<Piece>): seq<Bytes> {
    if ps == [] then [] else [FieldArg(ps[0].field)] + PiecesArgs(ps[1..])
  }

  // ----- texts within a line -----

  /** The text t stands in s from position i on. */
  predicate Stands(s: Bytes, i: nat, t: Bytes) {
    i + |t| <= |s| && s[i..i + |t|] == t
  }

  lemma StandsParts(s: Bytes, i: nat, a: Bytes, b: Bytes)
    requires Stands(s, i, a + b)
    ensures Stands(s, i, a) && Stands(s, i + |a|, b)
  {
    assert a == (a + b)[..|a|] && b == (a + b)[|a|..];
  }

  lemma StandsFits(s: Bytes, i: nat, t: Bytes)
    requires Stands(s, i, t)
    ensures i + |t| <= |s|
  {
  }

  lemma StandsAt(s: Bytes, i: nat, t: Bytes, k: nat)
    requires Stands(s, i, t) && k < |t|
    ensures i + k < |s| && s[i + k] == At(s, i + k) == t[k]
  {
    assert s[i..i + |t|][k] == s[i + k];
  }

  // ----- one turn of the token loop -----

  lemma LexBare(s: Bytes, i: nat)
    requires i < |s| && BareByte(s[i])
    ensures Lex(s, i, Bare) == Emit(s[i], i + 1)
  {
  }

  lemma ScanEmit(s: Bytes, i: nat, q: Quoting, text: Bytes, b: byte, next: nat)
    requires i <= |s| && NUL !in s && Lex(s, i, q) == Emit(b, next)
    ensures next <= |s| && Scan(s, i, q, text) == Scan(s, next, q, text + [b])
  {
    LexInside(s, i, q);
    hide Lex;
  }

  lemma Longer(text: Bytes, b: byte, more: Bytes)
    ensures text + [b] + more == text + ([b] + more)
  {
  }

  lemma BareHead(bare: Bytes)
    requires BareText(bare) && bare != []
    ensures bare == [bare[0]] + bare[1..] && BareByte(bare[0]) && BareText(bare[1..])
  {
  }

  lemma Unchanged(text: Bytes, none: Bytes)
    requires none == []
    ensures text + none == text
  {
  }

  lemma {:induction false} ScanBare(s: Bytes, i: nat, bare: Bytes, text: Bytes)
    requires NUL !in s && Stands(s, i, bare) && BareText(bare)
    ensures i + |bare| <= |s| && Scan(s, i, Bare, text) == Scan(s, i + |bare|, Bare, text + bare)
    decreases |bare|
  {
    hide *;
    StandsFits(s, i, bare);
    if bare == [] {
      Unchanged(text, bare);
    } else {
      var b, more := bare[0], bare[1..];
      BareHead(bare);
      StandsAt(s, i, bare, 0);
      LexBare(s, i);
      ScanEmit(s, i, Bare, text, b, i + 1);
      StandsParts(s, i, [b], more);
      ScanBare(s, i + 1, more, text + [b]);
      Longer(text, b, more);
    }
  }

  lemma DigitMeans(n: nat, up: bool)
    requires n < 16
    ensures IsHexDigit(Digit(n, up)) && HexValue(Digit(n, up)) == n
  {
  }

  lemma LexRaw(s: Bytes, i: nat)
    requires i < |s| && s[i] != NUL && s[i] != QUOTE && s[i] != BACKSLASH
    ensures Lex(s, i, Double) == Emit(s[i], i + 1)
  {
  }

  lemma LexHex(s: Bytes, i: nat)
    requires i + 3 < |s| && s[i] == BACKSLASH && s[i + 1] == 'x' as int && IsHexDigit(s[i + 2]) && IsHexDigit(s[i + 3])
    ensures Lex(s, i, Double) == Emit(HexValue(s[i + 2]) * 16 + HexValue(s[i + 3]), i + 4)
  {
  }

  lemma LexEscape(s: Bytes, i: nat)
    requires i + 1 < |s| && s[i] == BACKSLASH && s[i + 1] != NUL && s[i + 1] != 'x' as int
    ensures Lex(s, i, Double) == Emit(Unescape(s[i + 1]), i + 2)
  {
  }

  /** A backslash and an x without two hexadecimal digits behind them are just an x. */
  lemma LexLoneX(s: Bytes, i: nat)
    requires i + 1 < |s| && s[i] == BACKSLASH && s[i + 1] == 'x' as int
    requires i + 3 >= |s| || !IsHexDigit(s[i + 2]) || !IsHexDigit(s[i + 3])
    ensures Lex(s, i, Double) == Emit('x' as int, i + 2)
  {
  }

  lemma HexText(b: byte, upHigh: bool, upLow: bool)
    ensures var t := GlyphText(Hex(b, upHigh, upLow));
            && |t| == 4 && t[0] == BACKSLASH && t[1] == 'x' as int && IsHexDigit(t[2]) && IsHexDigit(t[3])
            && HexValue(t[2]) * 16 + HexValue(t[3]) == b
  {
    DigitMeans(b / 16, upHigh);
    DigitMeans(b % 16, upLow);
    hide Digit;
  }

  lemma ShortText(g: Glyph)
    requires ValidGlyph(g) && (g.Named? || g.Escaped?)
    ensures var t := GlyphText(g);
            |t| == 2 && t[0] == BACKSLASH && t[1] != NUL && t[1] != 'x' as int && Unescape(t[1]) == g.b
  {
  }

  lemma RawText(g: Glyph)
    requires ValidGlyph(g) && g.Raw?
    ensures GlyphText(g) == [g.b] && g.b != NUL && g.b != QUOTE && g.b != BACKSLASH
  {
  }

  lemma LexGlyph(s: Bytes, i: nat, g: Glyph)
    requires ValidGlyph(g) && Stands(s, i, GlyphText(g))
    ensures Lex(s, i, Double) == Emit(g.b, i + |GlyphText(g)|)
  {
    hide *;
    var t := GlyphText(g);
    StandsAt(s, i, t, 0);
    match g {
      case Raw(b) =>
        RawText(g);
        LexRaw(s, i);
      case Hex(b, upHigh, upLow) =>
        HexText(b, upHigh, upLow);
        StandsAt(s, i, t, 1);
        StandsAt(s, i, t, 2);
        StandsAt(s, i, t, 3);
        LexHex(s, i);
      case _ =>
        ShortText(g);
        StandsAt(s, i, t, 1);
        LexEscape(s, i);
    }
  }

  lemma GlyphsHead(gs: seq<Glyph>)
    requires ValidGlyphs(gs) && gs != []
    ensures ValidGlyph(gs[0]) && ValidGlyphs(gs[1..])
    ensures DoubleText(gs) == GlyphText(gs[0]) + DoubleText(gs[1..]) && Denoted(gs) == [gs[0].b] + Denoted(gs[1..])
  {
    hide GlyphText;
  }

  lemma NoGlyphs(gs: seq<Glyph>)
    requires gs == []
    ensures DoubleText(gs) == [] && Denoted(gs) == []
  {
  }

  lemma {:induction false} ScanDouble(s: Bytes, i: nat, gs: seq<Glyph>, text: Bytes)
    requires NUL !in s && ValidGlyphs(gs) && Stands(s, i, DoubleText(gs))
    ensures i + |DoubleText(gs)| <= |s|
    ensures Scan(s, i, Double, text) == Scan(s, i + |DoubleText(gs)|, Double, text + Denoted(gs))
    decreases |gs|
  {
    hide *;
    StandsFits(s, i, DoubleText(gs));
    if gs == [] {
      NoGlyphs(gs);
      Unchanged(text, Denoted(gs));
    } else {
      var g, more := gs[0], gs[1..];
      GlyphsHead(gs);
      StandsParts(s, i, GlyphText(g), DoubleText(more));
      LexGlyph(s, i, g);
      var next := i + |GlyphText(g)|;
      ScanEmit(s, i, Double, text, g.b, next);
      ScanDouble(s, next, more, text + [g.b]);
      Longer(text, g.b, Denoted(more));
    }
  }

  /** A backslash at the end of the text does not stand before an apostrophe. */
  predicate Behaves(s: Bytes, i: nat, text: Bytes) {
    text != [] && text[|text| - 1] == BACKSLASH ==> At(s, i + |SingleText(text)|) != APOSTROPHE
  }

  function SingleByte(b: byte): Bytes {
    if b == APOSTROPHE then [BACKSLASH, APOSTROPHE] else [b]
  }

  /** How the text of single quotes starts. */
  lemma SingleStarts(text: Bytes)
    requires text != []
    ensures var t := SingleText(text);
            && |t| >= 1 && t[0] == (if text[0] == APOSTROPHE then BACKSLASH else text[0])
            && (text[0] == APOSTROPHE ==> |t| >= 2 && t[1] == APOSTROPHE)
            && (text[0] != APOSTROPHE && |text| > 1 ==> |t| >= 2 && t[1] != APOSTROPHE)
            && (text[0] != APOSTROPHE && |text| == 1 ==> |t| == 1)
            && t == SingleByte(text[0]) + SingleText(text[1..])
  {
    var more := text[1..];
    assert more != [] ==> SingleText(more)[0] == if more[0] == APOSTROPHE then BACKSLASH else more[0];
  }

  lemma LexInSingle(s: Bytes, i: nat)
    requires i < |s| && s[i] != NUL
    ensures s[i] == BACKSLASH && At(s, i + 1) == APOSTROPHE ==> Lex(s, i, Single) == Emit(APOSTROPHE, i + 2)
    ensures !(s[i] == BACKSLASH && At(s, i + 1) == APOSTROPHE) && s[i] != APOSTROPHE ==>
              Lex(s, i, Single) == Emit(s[i], i + 1)
  {
  }

  lemma LexSingle(s: Bytes, i: nat, text: Bytes)
    requires NUL !in s && text != [] && Stands(s, i, SingleText(text)) && Behaves(s, i, text)
    ensures Lex(s, i, Single) == Emit(text[0], i + |SingleByte(text[0])|)
  {
    hide SingleText, Stands, Lex, At, SingleByte;
    var t := SingleText(text);
    SingleStarts(text);
    StandsAt(s, i, t, 0);
    assert s[i] in s;
    if |t| >= 2 {
      StandsAt(s, i, t, 1);
    }
    LexInSingle(s, i);
    SingleLength(text[0]);
  }

  lemma SingleLength(b: byte)
    ensures |SingleByte(b)| == if b == APOSTROPHE then 2 else 1
  {
  }

  lemma BehavesOn(s: Bytes, i: nat, text: Bytes)
    requires text != [] && Behaves(s, i, text)
    ensures Behaves(s, i + |SingleByte(text[0])|, text[1..])
  {
    hide SingleText, At;
    SingleStarts(text);
  }

  lemma NoSingle(text: Bytes)
    requires text == []
    ensures SingleText(text) == []
  {
  }

  lemma {:induction false} ScanSingle(s: Bytes, i: nat, text: Bytes, done: Bytes)
    requires NUL !in s && Stands(s, i, SingleText(text)) && Behaves(s, i, text)
    ensures i + |SingleText(text)| <= |s|
    ensures Scan(s, i, Single, done) == Scan(s, i + |SingleText(text)|, Single, done + text)
    decreases |text|
  {
    hide *;
    StandsFits(s, i, SingleText(text));
    if text == [] {
      NoSingle(text);
      Unchanged(done, text);
    } else {
      var b, more := text[0], text[1..];
      var next := i + |SingleByte(b)|;
      SingleStarts(text);
      LexSingle(s, i, text);
      BehavesOn(s, i, text);
      StandsParts(s, i, SingleByte(b), SingleText(more));
      ScanEmit(s, i, Single, done, b, next);
      ScanSingle(s, next, more, done + [b]);
      Longer(done, b, more);
      assert text == [b] + more;
    }
  }

  // ----- one argument -----

  lemma EnterQuotes(s: Bytes, i: nat, text: Bytes)
    requires i < |s| && NUL !in s
    ensures s[i] == QUOTE ==> Scan(s, i, Bare, text) == Scan(s, i + 1, Double, text)
    ensures s[i] == APOSTROPHE ==> Scan(s, i, Bare, text) == Scan(s, i + 1, Single, text)
  {
  }

  /** The end of a word, and of a quoted text that a blank or the end of the line follows. */
  lemma ScanEnds(s: Bytes, i: nat, q: Quoting, text: Bytes)
    requires i <= |s| && NUL !in s
    ensures q.Bare? && i == |s| ==> Scan(s, i, q, text) == Token(text, i)
    ensures q.Bare? && i < |s| && Separator(s[i]) ==> Scan(s, i, q, text) == Token(text, i + 1)
    ensures i < |s| && ((q.Double? && s[i] == QUOTE) || (q.Single? && s[i] == APOSTROPHE)) ==>
              Scan(s, i, q, text) == if i + 1 == |s| || IsSpace(s[i + 1]) then Token(text, i + 1) else Malformed
    ensures !q.Bare? && i == |s| ==> Scan(s, i, q, text) == Malformed
  {
    if i + 1 < |s| {
      assert s[i + 1] in s;
    }
    if i < |s| {
      assert s[i] in s;
    }
  }

  /** A blank that ends a word, or the end of the line. */
  predicate Ends(s: Bytes, i: nat) {
    i == |s| || (i < |s| && Separator(s[i]))
  }

  lemma EndsInBlank(s: Bytes, i: nat)
    requires NUL !in s && Ends(s, i)
    ensures i == |s| || IsSpace(s[i])
  {
    if i < |s| {
      assert s[i] in s;
    }
  }

  /** The quoted rest of an argument. */
  lemma ScanTail(s: Bytes, i: nat, t: Tail, text: Bytes)
    requires NUL !in s && ValidTail(t) && !t.NoTail? && Stands(s, i, TailText(t)) && Ends(s, i + |TailText(t)|)
    ensures i < |s| && !IsSpace(s[i]) && Scan(s, i, Bare, text) == Token(text + TailArg(t), i + |TailText(t)|)
  {
    EndsInBlank(s, i + |TailText(t)|);
    match t
    case InDouble(gs) => ScanDoubleTail(s, i, gs, text);
    case InSingle(arg) => ScanSingleTail(s, i, arg, text);
  }

  lemma InQuotes(s: Bytes, i: nat, quote: byte, body: Bytes)
    requires Stands(s, i, [quote] + body + [quote])
    ensures i + |body| + 2 <= |s| && s[i] == quote && Stands(s, i + 1, body) && s[i + 1 + |body|] == quote
  {
    hide Stands, At;
    StandsFits(s, i, [quote] + body + [quote]);
    StandsParts(s, i, [quote] + body, [quote]);
    StandsParts(s, i, [quote], body);
    StandsAt(s, i, [quote], 0);
    StandsAt(s, i + 1 + |body|, [quote], 0);
  }

  lemma ScanDoubleTail(s: Bytes, i: nat, gs: seq<Glyph>, text: Bytes)
    requires NUL !in s && ValidGlyphs(gs) && Stands(s, i, [QUOTE] + DoubleText(gs) + [QUOTE])
    requires i + |DoubleText(gs)| + 2 <= |s|
    requires i + |DoubleText(gs)| + 2 < |s| ==> IsSpace(s[i + |DoubleText(gs)| + 2])
    ensures i < |s| && !IsSpace(s[i])
    ensures Scan(s, i, Bare, text) == Token(text + Denoted(gs), i + |DoubleText(gs)| + 2)
  {
    hide Scan, DoubleText, Denoted, Stands;
    InQuotes(s, i, QUOTE, DoubleText(gs));
    EnterQuotes(s, i, text);
    ScanDouble(s, i + 1, gs, text);
    ScanEnds(s, i + 1 + |DoubleText(gs)|, Double, text + Denoted(gs));
  }

  lemma ScanSingleTail(s: Bytes, i: nat, arg: Bytes, text: Bytes)
    requires NUL !in s && ValidTail(InSingle(arg)) && Stands(s, i, [APOSTROPHE] + SingleText(arg) + [APOSTROPHE])
    requires i + |SingleText(arg)| + 2 <= |s|
    requires i + |SingleText(arg)| + 2 < |s| ==> IsSpace(s[i + |SingleText(arg)| + 2])
    ensures i < |s| && !IsSpace(s[i])
    ensures Scan(s, i, Bare, text) == Token(text + arg, i + |SingleText(arg)| + 2)
  {
    hide Scan, SingleText, Stands;
    InQuotes(s, i, APOSTROPHE, SingleText(arg));
    EnterQuotes(s, i, text);
    ScanSingle(s, i + 1, arg, text);
    ScanEnds(s, i + 1 + |SingleText(arg)|, Single, text + arg);
  }

  /** A written argument is scanned whole; a blank that ends a bare one is taken with it. */
  lemma ScanField(s: Bytes, i: nat, f: Field) returns (next: nat)
    requires NUL !in s && ValidField(f) && Stands(s, i, FieldText(f)) && Ends(s, i + |FieldText(f)|)
    ensures i < |s| && !IsSpace(s[i])
    ensures next == i + |FieldText(f)| || (next == i + |FieldText(f)| + 1 && i + |FieldText(f)| < |s|)
    ensures Scan(s, i, Bare, []) == Token(FieldArg(f), next)
  {
    hide *;
    FieldParts(f);
    StandsParts(s, i, f.bare, TailText(f.tail));
    ScanBareFirst(s, i, f.bare);
    if f.bare != [] {
      StandsAt(s, i, f.bare, 0);
    }
    next := i + |FieldText(f)|;
    if f.tail.NoTail? {
      BareOnly(f);
      BareEnds(s, next, f.bare);
      next := if next < |s| then next + 1 else next;
    } else {
      ScanTail(s, i + |f.bare|, f.tail, f.bare);
    }
  }

  lemma ScanBareFirst(s: Bytes, i: nat, bare: Bytes)
    requires NUL !in s && Stands(s, i, bare) && BareText(bare)
    ensures i + |bare| <= |s| && Scan(s, i, Bare, []) == Scan(s, i + |bare|, Bare, bare)
  {
    hide *;
    var none: Bytes := [];
    ScanBare(s, i, bare, none);
    assert none + bare == bare;
  }

  lemma FieldParts(f: Field)
    requires ValidField(f)
    ensures BareText(f.bare) && ValidTail(f.tail) && (f.bare == [] ==> !f.tail.NoTail?)
    ensures f.bare != [] ==> !IsSpace(f.bare[0])
    ensures FieldText(f) == f.bare + TailText(f.tail) && FieldArg(f) == f.bare + TailArg(f.tail)
  {
    hide TailText, TailArg, ValidTail, BareText;
  }

  lemma BareEnds(s: Bytes, i: nat, text: Bytes)
    requires i <= |s| && NUL !in s && Ends(s, i)
    ensures Scan(s, i, Bare, text) == Token(text, if i < |s| then i + 1 else i)
  {
    ScanEnds(s, i, Bare, text);
    hide Scan;
  }

  lemma BareOnly(f: Field)
    requires ValidField(f) && f.tail.NoTail?
    ensures FieldText(f) == f.bare && FieldArg(f) == f.bare
  {
  }

  // ----- a whole line -----

  lemma BlanksHead(gap: Bytes)
    requires Blanks(gap) && gap != []
    ensures gap == [gap[0]] + gap[1..] && IsSpace(gap[0]) && Blanks(gap[1..])
  {
  }

  lemma {:induction false} SplitGap(s: Bytes, i: nat, gap: Bytes)
    requires NUL !in s && Stands(s, i, gap) && Blanks(gap)
    ensures i + |gap| <= |s| && Split(s, i) == Split(s, i + |gap|)
    decreases |gap|
  {
    hide *;
    StandsFits(s, i, gap);
    if gap != [] {
      BlanksHead(gap);
      StandsAt(s, i, gap, 0);
      SplitBlank(s, i);
      StandsParts(s, i, [gap[0]], gap[1..]);
      SplitGap(s, i + 1, gap[1..]);
    }
  }

  /** The arguments in front of those that follow. */
  function Before(args: seq<Bytes>, rest: Option<seq<Bytes>>): Option<seq<Bytes>> {
    match rest
    case None => None
    case Some(more) => Some(args + more)
  }

  lemma BeforeTwice(a: seq<Bytes>, b: seq<Bytes>, rest: Option<seq<Bytes>>)
    ensures Before(a, Before(b, rest)) == Before(a + b, rest)
  {
    if rest.Some? {
      assert a + (b + rest.value) == a + b + rest.value;
    }
  }

  /** One argument and the blanks behind it. */
  lemma SplitPiece(s: Bytes, i: nat, p: Piece)
    requires NUL !in s && ValidField(p.field) && Gap(p.gap) && Stands(s, i, FieldText(p.field) + p.gap)
    requires p.gap == [] ==> i + |FieldText(p.field)| == |s|
    ensures i + |FieldText(p.field) + p.gap| <= |s|
    ensures Split(s, i) == Before([FieldArg(p.field)], Split(s, i + |FieldText(p.field) + p.gap|))
  {
    hide *;
    var f, j := p.field, i + |FieldText(p.field)|;
    StandsFits(s, i, FieldText(f) + p.gap);
    StandsParts(s, i, FieldText(f), p.gap);
    GapEnds(s, j, p.gap);
    var next := ScanField(s, i, f);
    SplitTokenBefore(s, i, FieldArg(f), next);
    SplitGap(s, j, p.gap);
    if next != j {
      EndsInBlank(s, j);
      SplitBlank(s, j);
    }
  }

  lemma SplitTokenBefore(s: Bytes, i: nat, text: Bytes, next: nat)
    requires i < |s| && NUL !in s && !IsSpace(s[i]) && Scan(s, i, Bare, []) == Token(text, next)
    ensures next <= |s| && Split(s, i) == Before([text], Split(s, next))
  {
    hide Split, Scan;
    SplitToken(s, i, text, next);
  }

  lemma GapEnds(s: Bytes, i: nat, gap: Bytes)
    requires Gap(gap) && Stands(s, i, gap) && (gap == [] ==> i == |s|)
    ensures Ends(s, i) && Blanks(gap)
  {
    if gap != [] {
      StandsAt(s, i, gap, 0);
    }
  }

  /** Written arguments with blanks behind each: they are read, and reading goes on behind them. */
  lemma {:induction false} SplitPieces(s: Bytes, i: nat, ps: seq<Piece>)
    requires NUL !in s && ValidPieces(ps) && Stands(s, i, PiecesText(ps))
    requires ps != [] && ps[|ps| - 1].gap == [] ==> i + |PiecesText(ps)| == |s|
    ensures i + |PiecesText(ps)| <= |s|
    ensures Split(s, i) == Before(PiecesArgs(ps), Split(s, i + |PiecesText(ps)|))
    decreases |ps|
  {
    hide *;
    StandsFits(s, i, PiecesText(ps));
    if ps == [] {
      NoPieces(ps, Split(s, i));
    } else {
      var p, more := ps[0], ps[1..];
      PiecesHead(ps);
      StandsParts(s, i, FieldText(p.field) + p.gap, PiecesText(more));
      SplitPiece(s, i, p);
      SplitPieces(s, i + |FieldText(p.field) + p.gap|, more);
      BeforeTwice([FieldArg(p.field)], PiecesArgs(more), Split(s, i + |PiecesText(ps)|));
    }
  }

  lemma NoPieces(ps: seq<Piece>, rest: Option<seq<Bytes>>)
    requires ps == []
    ensures PiecesText(ps) == [] && Before(PiecesArgs(ps), rest) == rest
  {
    if rest.Some? {
      assert PiecesArgs(ps) + rest.value == rest.value;
    }
  }

  lemma PiecesHead(ps: seq<Piece>)
    requires ValidPieces(ps) && ps != []
    ensures var p, more := ps[0], ps[1..];
            && ValidField(p.field) && Gap(p.gap) && ValidPieces(more)
            && PiecesText(ps) == FieldText(p.field) + p.gap + PiecesText(more)
            && PiecesArgs(ps) == [FieldArg(p.field)] + PiecesArgs(more)
            && (p.gap == [] ==> more == [] && PiecesText(ps) == FieldText(p.field))
            && (more != [] ==> more[|more| - 1] == ps[|ps| - 1])
            && (more == [] ==> ps[|ps| - 1] == p)
  {
    PiecesSplit(ps);
    hide FieldText, FieldArg, ValidField, Gap;
    if ps[0].gap == [] {
      assert ps[1..] == [];
      assert FieldText(ps[0].field) + [] + [] == FieldText(ps[0].field);
    }
  }

  lemma PiecesSplit(ps: seq<Piece>)
    requires ValidPieces(ps) && ps != []
    ensures ValidField(ps[0].field) && Gap(ps[0].gap) && ValidPieces(ps[1..])
    ensures PiecesText(ps) == FieldText(ps[0].field) + ps[0].gap + PiecesText(ps[1..])
    ensures PiecesText([]) == []
  {
    hide FieldText, ValidField, Gap;
  }

  lemma {:induction false} DoubleNoNul(gs: seq<Glyph>)
    requires ValidGlyphs(gs)
    ensures NUL !in DoubleText(gs)
    decreases |gs|
  {
    if gs != [] {
      GlyphNoNul(gs[0]);
      hide GlyphText;
      DoubleNoNul(gs[1..]);
    }
  }

  lemma GlyphNoNul(g: Glyph)
    requires ValidGlyph(g)
    ensures NUL !in GlyphText(g)
  {
    if g.Hex? {
      DigitMeans(g.b / 16, g.upHigh);
      DigitMeans(g.b % 16, g.upLow);
    }
    hide Digit, Ascii;
  }

  lemma {:induction false} SingleNoNul(text: Bytes)
    requires NUL !in text
    ensures NUL !in SingleText(text)
    decreases |text|
  {
    if text != [] {
      SingleNoNul(text[1..]);
    }
  }

  lemma FieldNoNul(f: Field)
    requires ValidField(f)
    ensures NUL !in FieldText(f)
  {
    match f.tail
    case NoTail =>
    case InDouble(gs) => DoubleNoNul(gs);
    case InSingle(text) => SingleNoNul(text);
  }

  lemma {:induction false} PiecesNoNul(ps: seq<Piece>)
    requires ValidPieces(ps)
    ensures NUL !in PiecesText(ps)
    decreases |ps|
  {
    if ps != [] {
      assert ValidField(ps[0].field) && Gap(ps[0].gap) && ValidPieces(ps[1..]);
      FieldNoNul(ps[0].field);
      hide FieldText;
      PiecesNoNul(ps[1..]);
    }
  }

  /** However the arguments are written, each in its own way and with any blanks before, between and behind them, the
      line splits into them. */
  lemma SplitReadsWritten(lead: Bytes, ps: seq<Piece>)
    requires Blanks(lead) && ValidPieces(ps)
    ensures NUL !in lead + PiecesText(ps)
    ensures Split(lead + PiecesText(ps), 0) == Some(PiecesArgs(ps))
  {
    hide *;
    var s := lead + PiecesText(ps);
    PiecesNoNul(ps);
    BlanksNoNul(lead);
    LineStands(lead, PiecesText(ps), []);
    assert s + [] == s;
    SplitGap(s, 0, lead);
    SplitPieces(s, |lead|, ps);
    SplitEnd(s);
    NothingMore(PiecesArgs(ps));
  }

  lemma NothingMore(args: seq<Bytes>)
    ensures Before(args, Some([])) == Some(args)
  {
    assert args + [] == args;
  }

  lemma BlanksNoNul(t: Bytes)
    requires Blanks(t)
    ensures NUL !in t
  {
  }

  lemma LineStands(lead: Bytes, text: Bytes, post: Bytes)
    ensures var s := lead + text + post;
            Stands(s, 0, lead) && Stands(s, |lead|, text) && Stands(s, |lead| + |text|, post)
  {
  }

  /** An argument spelled out in hexadecimal escapes. */
  function Spelled(arg: Bytes): Field {
    Field([], InDouble(seq(|arg|, i requires 0 <= i < |arg| => Hex(arg[i], false, false))))
  }

  function SpelledAll(args: seq<Bytes>): (ps: seq<Piece>)
    ensures |ps| == |args| && forall i :: 0 <= i < |args| ==> ps[i] == Piece(Spelled(args[i]), [32])
  {
    seq(|args|, i requires 0 <= i < |args| => Piece(Spelled(args[i]), [32]))
  }

  lemma {:induction false} SpelledDenotes(gs: seq<Glyph>, arg: Bytes)
    requires |gs| == |arg| && forall i :: 0 <= i < |arg| ==> gs[i].b == arg[i]
    ensures Denoted(gs) == arg
    decreases |gs|
  {
    if gs != [] {
      SpelledDenotes(gs[1..], arg[1..]);
    }
  }

  lemma {:induction false} SpelledArgs(args: seq<Bytes>)
    ensures ValidPieces(SpelledAll(args)) && PiecesArgs(SpelledAll(args)) == args
    decreases |args|
  {
    if args != [] {
      SpelledDenotes(Spelled(args[0]).tail.gs, args[0]);
      assert FieldArg(Spelled(args[0])) == args[0];
      hide Spelled, FieldArg;
      SpelledArgs(args[1..]);
      assert SpelledAll(args)[1..] == SpelledAll(args[1..]);
      assert args == [args[0]] + args[1..];
    }
    SpelledValid(args);
  }

  lemma SpelledValid(args: seq<Bytes>)
    ensures ValidPieces(SpelledAll(args))
  {
  }

  /** Every list of byte strings, whatever they hold, can be written so that it is read back. */
  lemma EveryListCanBeWritten(args: seq<Bytes>)
    ensures ValidPieces(SpelledAll(args)) && NUL !in PiecesText(SpelledAll(args))
    ensures Split(PiecesText(SpelledAll(args)), 0) == Some(args)
  {
    hide *;
    SpelledArgs(args);
    NoBlanks([]);
    SplitReadsWritten([], SpelledAll(args));
    assert [] + PiecesText(SpelledAll(args)) == PiecesText(SpelledAll(args));
  }

  lemma NoBlanks(t: Bytes)
    requires t == []
    ensures Blanks(t)
  {
  }

  /** What follows the text of quotes when they are not closed properly: nothing, or a closing quote and more text. */
  predicate Unclosed(quote: byte, bad: Bytes) {
    bad == [] || (bad[0] == quote && |bad| > 1 && !IsSpace(bad[1]))
  }

  lemma SplitMalformed(s: Bytes, i: nat)
    requires i < |s| && NUL !in s && !IsSpace(s[i]) && Scan(s, i, Bare, []) == Malformed
    ensures Split(s, i) == None
  {
    hide Scan;
    assert SkipBlanks(s, i) == i;
  }

  /** A bad argument behind good ones spoils the line. */
  lemma RefusedBehind(lead: Bytes, ps: seq<Piece>, body: Bytes)
    requires Blanks(lead) && ValidPieces(ps) && (ps != [] ==> ps[|ps| - 1].gap != [])
    requires body != [] && !IsSpace(body[0])
    requires NUL !in lead + PiecesText(ps) + body
    requires Scan(lead + PiecesText(ps) + body, |lead| + |PiecesText(ps)|, Bare, []) == Malformed
    ensures Split(lead + PiecesText(ps) + body, 0) == None
  {
    hide *;
    var s := lead + PiecesText(ps) + body;
    var j := |lead| + |PiecesText(ps)|;
    LineStands(lead, PiecesText(ps), body);
    StandsAt(s, j, body, 0);
    SplitGap(s, 0, lead);
    SplitPieces(s, |lead|, ps);
    SplitMalformed(s, j);
    NoneBefore(PiecesArgs(ps));
  }

  lemma NoneBefore(args: seq<Bytes>)
    ensures Before(args, None) == None
  {
  }

  /** A bare beginning, an opening quote, the text behind it and what spoils it, standing in a line. */
  lemma BadParts(s: Bytes, i: nat, bare: Bytes, quote: byte, body: Bytes, bad: Bytes)
    requires Stands(s, i, bare + [quote] + body + bad) && i + |bare + [quote] + body + bad| == |s|
    ensures Stands(s, i, bare) && Stands(s, i + |bare| + 1, body)
    ensures i + |bare| + 1 + |body| + |bad| == |s| && s[i + |bare|] == quote
    ensures forall k :: 0 <= k < |bad| ==> s[i + |bare| + 1 + |body| + k] == bad[k]
  {
    hide Stands, At;
    StandsParts(s, i, bare + [quote] + body, bad);
    StandsParts(s, i, bare + [quote], body);
    StandsParts(s, i, bare, [quote]);
    StandsAt(s, i + |bare|, [quote], 0);
    forall k | 0 <= k < |bad| ensures s[i + |bare| + 1 + |body| + k] == bad[k] {
      StandsAt(s, i + |bare| + 1 + |body|, bad, k);
    }
  }

  lemma ScanOpenDouble(s: Bytes, i: nat, bare: Bytes, gs: seq<Glyph>, bad: Bytes)
    requires NUL !in s && BareText(bare) && ValidGlyphs(gs) && Unclosed(QUOTE, bad)
    requires Stands(s, i, bare + [QUOTE] + DoubleText(gs) + bad) && i + |bare + [QUOTE] + DoubleText(gs) + bad| == |s|
    ensures Scan(s, i, Bare, []) == Malformed
  {
    hide Scan, Stands, DoubleText, Denoted, BareText;
    BadParts(s, i, bare, QUOTE, DoubleText(gs), bad);
    ScanBareFirst(s, i, bare);
    EnterQuotes(s, i + |bare|, bare);
    ScanDouble(s, i + |bare| + 1, gs, bare);
    ScanEnds(s, i + |bare| + 1 + |DoubleText(gs)|, Double, bare + Denoted(gs));
  }

  /** A double quote left open, or closed in the middle of a word, is an error wherever it stands. */
  lemma OpenDoubleRefused(lead: Bytes, ps: seq<Piece>, bare: Bytes, gs: seq<Glyph>, bad: Bytes)
    requires Blanks(lead) && ValidPieces(ps) && (ps != [] ==> ps[|ps| - 1].gap != [])
    requires BareText(bare) && (bare != [] ==> !IsSpace(bare[0])) && ValidGlyphs(gs)
    requires Unclosed(QUOTE, bad) && NUL !in bad
    ensures var s := lead + PiecesText(ps) + (bare + [QUOTE] + DoubleText(gs) + bad); NUL !in s && Split(s, 0) == None
  {
    hide *;
    var body := bare + [QUOTE] + DoubleText(gs) + bad;
    PiecesNoNul(ps);
    DoubleNoNul(gs);
    BareNoNul(bare);
    BlanksNoNul(lead);
    BodyPlain(bare, QUOTE, DoubleText(gs), bad);
    JoinNoNul(lead, PiecesText(ps), body);
    LineStands(lead, PiecesText(ps), body);
    ScanOpenDouble(lead + PiecesText(ps) + body, |lead| + |PiecesText(ps)|, bare, gs, bad);
    RefusedBehind(lead, ps, body);
  }

  lemma JoinNoNul(a: Bytes, b: Bytes, c: Bytes)
    requires NUL !in a && NUL !in b && NUL !in c
    ensures NUL !in a + b + c
  {
  }

  lemma BodyPlain(bare: Bytes, quote: byte, body: Bytes, bad: Bytes)
    requires (quote == QUOTE || quote == APOSTROPHE) && (bare != [] ==> !IsSpace(bare[0]))
    requires NUL !in bare && NUL !in body && NUL !in bad
    ensures var t := bare + [quote] + body + bad; t != [] && !IsSpace(t[0]) && NUL !in t
  {
  }

  lemma BareNoNul(bare: Bytes)
    requires BareText(bare)
    ensures NUL !in bare
  {
  }

  lemma ScanOpenSingle(s: Bytes, i: nat, bare: Bytes, text: Bytes, bad: Bytes)
    requires NUL !in s && BareText(bare) && Unclosed(APOSTROPHE, bad)
    requires text != [] && text[|text| - 1] == BACKSLASH ==> bad == []
    requires Stands(s, i, bare + [APOSTROPHE] + SingleText(text) + bad)
    requires i + |bare + [APOSTROPHE] + SingleText(text) + bad| == |s|
    ensures Scan(s, i, Bare, []) == Malformed
  {
    hide Scan, Stands, SingleText, BareText;
    BadParts(s, i, bare, APOSTROPHE, SingleText(text), bad);
    ScanBareFirst(s, i, bare);
    EnterQuotes(s, i + |bare|, bare);
    assert Behaves(s, i + |bare| + 1, text);
    ScanSingle(s, i + |bare| + 1, text, bare);
    ScanEnds(s, i + |bare| + 1 + |SingleText(text)|, Single, bare + text);
  }

  /** The same for single quotes. */
  lemma OpenSingleRefused(lead: Bytes, ps: seq<Piece>, bare: Bytes, text: Bytes, bad: Bytes)
    requires Blanks(lead) && ValidPieces(ps) && (ps != [] ==> ps[|ps| - 1].gap != [])
    requires BareText(bare) && (bare != [] ==> !IsSpace(bare[0])) && NUL !in text && NUL !in bad
    requires Unclosed(APOSTROPHE, bad) && (text != [] && text[|text| - 1] == BACKSLASH ==> bad == [])
    ensures var s := lead + PiecesText(ps) + (bare + [APOSTROPHE] + SingleText(text) + bad);
            NUL !in s && Split(s, 0) == None
  {
    hide *;
    var body := bare + [APOSTROPHE] + SingleText(text) + bad;
    PiecesNoNul(ps);
    SingleNoNul(text);
    BareNoNul(bare);
    BlanksNoNul(lead);
    BodyPlain(bare, APOSTROPHE, SingleText(text), bad);
    JoinNoNul(lead, PiecesText(ps), body);
    LineStands(lead, PiecesText(ps), body);
    ScanOpenSingle(lead + PiecesText(ps) + body, |lead| + |PiecesText(ps)|, bare, text, bad);
    RefusedBehind(lead, ps, body);
  }

  // ----- from the line to the wire -----

  /** End to end: arguments that format without fault, however they are written on the command line, are split into
      themselves, and what is sent for them parses back into the list with its placeholders filled in. */
  lemma WrittenCommandArrives(p: Parser, lead: Bytes, ps: seq<Piece>, vals: seq<Bytes>, rest: Bytes)
    requires Blanks(lead) && ValidPieces(ps) && ps != [] && |vals| == |PiecesArgs(ps)|
    requires FirstFault(PiecesArgs(ps), 0).Fine?
    requires p.mode.Initial? && p.frames == [] && p.keep && |Command(Filled(PiecesArgs(ps), vals))| < TWO_32
    ensures NUL !in lead + PiecesText(ps) && Split(lead + PiecesText(ps), 0) == Some(PiecesArgs(ps))
    ensures var sent := Filled(PiecesArgs(ps), vals); ReadsAs(Parse(p, Command(sent) + rest), sent, rest)
  {
    hide *;
    SplitReadsWritten(lead, ps);
    CommandParsesBack(p, Filled(PiecesArgs(ps), vals), rest);
  }
}
