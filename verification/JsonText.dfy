/** JSON text: blanks outside strings, and the rendering of a tree of nestings. */
module JsonText {
  import opened ByteStrings

  // ----- blanks outside strings -----

  /** Outside strings, inside one, or after a backslash inside one (section 7 of RFC 8259). */
  datatype Lex = Out | In | Escape

  function Next(s: Lex, c: char): Lex {
    match s
    case Out => if c == '"' then In else Out
    case In => if c == '"' then Out else if c == '\\' then Escape else In
    case Escape => In
  }

  predicate Blank(c: char) {
    c == ' ' || c == '\t' || c == '\n' || c == '\r'
  }

  function End(s: Lex, t: string): Lex
    decreases |t|
  {
    if t == "" then s else End(Next(s, t[0]), t[1..])
  }

  /** The text without the blanks outside strings. */
  function Strip(s: Lex, t: string): string
    decreases |t|
  {
    if t == "" then ""
    else (if s == Out && Blank(t[0]) then "" else [t[0]]) + Strip(Next(s, t[0]), t[1..])
  }

  lemma {:induction false} Glue(s: Lex, a: string, b: string)
    ensures End(s, a + b) == End(End(s, a), b)
    ensures Strip(s, a + b) == Strip(s, a) + Strip(End(s, a), b)
    decreases |a|
  {
    if a == "" {
      assert a + b == b;
    } else {
      assert (a + b)[1..] == a[1..] + b;
      Glue(Next(s, a[0]), a[1..], b);
    }
  }

  /** Text that starts and ends outside strings. */
  predicate Whole(t: string) {
    End(Out, t) == Out
  }

  function Compact(t: string): string {
    Strip(Out, t)
  }

  /** Text with no blank outside its strings. */
  predicate Solid(t: string) {
    Whole(t) && Compact(t) == t
  }

  lemma GlueWhole(a: string, b: string)
    requires Whole(a)
    ensures End(Out, a + b) == End(Out, b) && Compact(a + b) == Compact(a) + Compact(b)
  {
    Glue(Out, a, b);
  }

  /** The characters between the quotes of a JSON string. */
  predicate StringBody(t: string) {
    t == "" || (t[0] != '"' && t[0] != '\\' && StringBody(t[1..])) || (t[0] == '\\' && |t| >= 2 && StringBody(t[2..]))
  }

  lemma {:induction false} BodyStaysInside(t: string)
    requires StringBody(t)
    ensures End(In, t) == In && Strip(In, t) == t
    decreases |t|
  {
    if t == "" {
    } else if t[0] == '\\' {
      BodyStaysInside(t[2..]);
      assert t[1..][1..] == t[2..] && t == [t[0]] + ([t[1]] + t[2..]);
    } else {
      BodyStaysInside(t[1..]);
      assert t == [t[0]] + t[1..];
    }
  }

  // ----- trees -----

  datatype Kind = General | Array

  datatype Json = Text(text: string) | Nest(kind: Kind, members: seq<Member>)

  datatype Member = Member(name: Option<string>, value: Json)

  function Opener(k: Kind): string {
    if k == General then "{" else "["
  }

  function Closer(k: Kind): string {
    if k == General then "}" else "]"
  }

  function Label(name: Option<string>): string {
    if name.None? then "" else "\"" + name.value + "\":"
  }

  /** Compact JSON: members separated by single commas, nothing after the last one. */
  function Render(j: Json): string
    decreases j, 1
  {
    match j
    case Text(t) => t
    case Nest(k, ms) => Opener(k) + Join(ms) + Closer(k)
  }

  function RenderMember(m: Member): string
    decreases m, 2
  {
    Label(m.name) + Render(m.value)
  }

  function Join(ms: seq<Member>): string
    decreases ms, 0
  {
    if ms == [] then ""
    else if |ms| == 1 then RenderMember(ms[0])
    else Join(ms[..|ms| - 1]) + "," + RenderMember(ms[|ms| - 1])
  }

  /** Every member followed by a comma, as a nesting stands while it is open. */
  function Terminated(ms: seq<Member>): string
    decreases |ms|
  {
    if ms == [] then "" else Terminated(ms[..|ms| - 1]) + RenderMember(ms[|ms| - 1]) + ","
  }

  lemma {:induction false} DropLastComma(ms: seq<Member>)
    requires ms != []
    ensures Terminated(ms) == Join(ms) + ","
    decreases |ms|
  {
    hide RenderMember;
    if |ms| > 1 {
      DropLastComma(ms[..|ms| - 1]);
    } else {
      assert Terminated(ms[..0]) == "";
    }
  }
}
