/** json_handler: a file that is appended to and overwritten by one character, and its stack of open nestings. */
module JsonWriter {
  import opened ByteStrings
  import opened JsonText

  /** m_nest_closer_types and the file written so far. */
  datatype State = State(file: string, nest: seq<Kind>)

  function Tabs(n: nat): (t: string)
    ensures |t| == n
  {
    if n == 0 then "" else Tabs(n - 1) + "\t"
  }

  function Beautified(s: State): State {
    s.(file := s.file + "\n" + Tabs(|s.nest|))
  }

  function Put(s: State, t: string): State {
    s.(file := s.file + t)
  }

  function Start(): State {
    Beautified(State("{", [General]))
  }

  function WriteObj(s: State, name: string, value: string): State {
    Put(Beautified(Put(s, "\"" + name + "\": " + value)), ",")
  }

  function OpenNesting(s: State, name: Option<string>, kind: Kind): State {
    Beautified(Put(s, Label(name) + Opener(kind)).(nest := s.nest + [kind]))
  }

  /** The last character of the file is overwritten by the closer. */
  function CloseNesting(s: State): State {
    var n := |s.nest|;
    if n == 0 || s.file == "" then s
    else
      var closed := Beautified(State(s.file[..|s.file| - 1] + Closer(s.nest[n - 1]), s.nest[..n - 1]));
      if n > 1 then Put(closed, ",") else closed
  }

  // ----- the tree behind the file -----

  /** An open nesting: its title and the members completed so far. */
  datatype Frame = Frame(name: Option<string>, kind: Kind, members: seq<Member>)

  function AddMember(stack: seq<Frame>, m: Member): (r: seq<Frame>)
    requires stack != []
    ensures |r| == |stack|
  {
    var f := stack[|stack| - 1];
    stack[|stack| - 1 := f.(members := f.members + [m])]
  }

  /** The compact text of the open nestings. */
  function Partial(stack: seq<Frame>): string {
    if stack == [] then ""
    else
      var f := stack[|stack| - 1];
      Partial(stack[..|stack| - 1]) + (Label(f.name) + Opener(f.kind) + Terminated(f.members))
  }

  predicate EndsIn(t: string, c: char) {
    t != "" && t[|t| - 1] == c
  }

  /** The file, blanks outside strings removed, is the text of the open nestings, and the character a close would
      overwrite is the comma after the last member, or a tab when there is none. */
  ghost predicate Tracks(s: State, stack: seq<Frame>) {
    && |s.nest| == |stack| && (forall i :: 0 <= i < |stack| ==> s.nest[i] == stack[i].kind)
    && Whole(s.file) && Compact(s.file) == Partial(stack)
    && (stack != [] ==> EndsIn(s.file, if stack[|stack| - 1].members == [] then '\t' else ','))
  }

  lemma {:induction false} TabsVanish(n: nat)
    ensures Whole(Tabs(n)) && Compact(Tabs(n)) == ""
    ensures n > 0 ==> Tabs(n)[n - 1] == '\t'
  {
    if n > 0 {
      TabsVanish(n - 1);
      GlueWhole(Tabs(n - 1), "\t");
    }
  }

  lemma BeautifyVanishes(s: State)
    requires Whole(s.file)
    ensures Whole(Beautified(s).file) && Compact(Beautified(s).file) == Compact(s.file)
    ensures |s.nest| > 0 ==> EndsIn(Beautified(s).file, '\t')
  {
    hide Strip, End;
    var t := Tabs(|s.nest|);
    TabsVanish(|s.nest|);
    NewLineVanishes();
    GlueWhole("\n", t);
    GlueWhole(s.file, "\n" + t);
    assert s.file + "\n" + t == s.file + ("\n" + t);
  }

  lemma NewLineVanishes()
    ensures Whole("\n") && Compact("\n") == ""
  {
  }

  lemma PutSolid(s: State, t: string)
    requires Whole(s.file) && Solid(t)
    ensures Whole(Put(s, t).file) && Compact(Put(s, t).file) == Compact(s.file) + t
  {
    GlueWhole(s.file, t);
  }

  // ----- each call -----

  /** The label of a JSON string, or no label, is written as it stands. */
  lemma LabelSolid(name: Option<string>)
    requires name.Some? ==> StringBody(name.value)
    ensures Solid(Label(name))
  {
    if name.Some? {
      var t := name.value;
      hide StringBody;
      BodyStaysInside(t);
      Glue(In, t, "\":");
      assert Label(name) == ['"'] + (t + "\":");
      assert (['"'] + (t + "\":"))[1..] == t + "\":";
      assert End(In, "\":") == Out && Strip(In, "\":") == "\":" by { ColonSolid(); }
    }
  }

  lemma ColonSolid()
    ensures End(In, "\":") == Out && Strip(In, "\":") == "\":"
  {
    var t := "\":";
    assert t[1..] == ":" && t[1..][1..] == "";
    assert Strip(Out, ":") == ":" + "";
    assert Strip(In, t) == "\"" + Strip(Out, ":");
  }

  lemma OneSolid(c: char)
    requires c != '"' && !Blank(c)
    ensures Solid([c])
  {
    var t: string := [c];
    assert t[1..] == "" && t[0] == c;
    assert End(Out, t) == End(Out, t[1..]) == Out;
    assert Strip(Out, t) == [c] + Strip(Out, t[1..]);
  }

  lemma SolidPair(a: string, b: string)
    requires Solid(a) && Solid(b)
    ensures Solid(a + b)
  {
    GlueWhole(a, b);
  }

  /** A written object without its blank after the colon. */
  lemma ObjectText(name: string, value: string)
    requires Solid(Label(Some(name)))
    ensures var t := "\"" + name + "\": " + value;
            End(Out, t) == End(Out, value) && Compact(t) == Label(Some(name)) + Compact(value)
  {
    hide Strip, End;
    var l := Label(Some(name));
    SpaceVanishes();
    GlueWhole(l, " ");
    GlueWhole(l + " ", value);
    assert "\"" + name + "\": " + value == l + " " + value;
  }

  lemma SpaceVanishes()
    ensures Whole(" ") && Compact(" ") == ""
  {
  }

  lemma PartialAdds(stack: seq<Frame>, m: Member)
    requires stack != []
    ensures Partial(AddMember(stack, m)) == Partial(stack) + (RenderMember(m) + ",")
  {
    hide RenderMember, Terminated, Partial, Label, Opener;
    var n := |stack| - 1;
    var f := stack[n];
    var g := f.(members := f.members + [m]);
    assert stack == stack[..n] + [f] && AddMember(stack, m) == stack[..n] + [g];
    PartialPush(stack[..n], f);
    PartialPush(stack[..n], g);
    TerminatedSnoc(f.members, m);
    Append(Partial(stack[..n]), Label(f.name) + Opener(f.kind), Terminated(f.members), RenderMember(m) + ",");
  }

  lemma Append(a: string, b: string, c: string, d: string)
    ensures (a + (b + c)) + d == a + (b + (c + d))
  {
  }

  lemma TerminatedSnoc(ms: seq<Member>, m: Member)
    ensures Terminated(ms + [m]) == Terminated(ms) + (RenderMember(m) + ",")
  {
    hide RenderMember;
    assert (ms + [m])[..|ms|] == ms;
  }

  /** The constructor. */
  lemma StartTracks()
    ensures Tracks(Start(), [Frame(None, General, [])])
  {
    hide Strip, End;
    var s := State("{", [General]);
    OneSolid('{');
    BeautifyVanishes(s);
    PartialRoot(Frame(None, General, []));
  }

  lemma PartialRoot(f: Frame)
    ensures Partial([f]) == Label(f.name) + Opener(f.kind) + Terminated(f.members)
  {
    var none: seq<Frame> := [];
    assert [f][..0] == none && Partial(none) == "";
  }

  /** The member that write_obj adds. */
  function Written(name: string, value: string): Member {
    Member(Some(name), Text(Compact(value)))
  }

  /** write_obj adds one named member to the innermost nesting. */
  lemma WriteObjTracks(s: State, stack: seq<Frame>, name: string, value: string)
    requires Tracks(s, stack) && stack != [] && Solid(Label(Some(name))) && Whole(value)
    ensures Tracks(WriteObj(s, name, value), AddMember(stack, Written(name, value)))
  {
    hide Strip, End, Partial, Terminated;
    var m := Written(name, value);
    var t := "\"" + name + "\": " + value;
    ObjectText(name, value);
    GlueWhole(s.file, t);
    BeautifyVanishes(Put(s, t));
    OneSolid(',');
    PutSolid(Beautified(Put(s, t)), ",");
    PartialAdds(stack, m);
    assert RenderMember(m) == Label(Some(name)) + Compact(value);
    Regroup(Partial(stack), RenderMember(m), ",");
  }

  /** open_nesting pushes an empty nesting. */
  lemma OpenNestingTracks(s: State, stack: seq<Frame>, name: Option<string>, kind: Kind)
    requires Tracks(s, stack) && Solid(Label(name))
    ensures Tracks(OpenNesting(s, name, kind), stack + [Frame(name, kind, [])])
  {
    hide Strip, End, Partial;
    var f := Frame(name, kind, []);
    var t := Label(name) + Opener(kind);
    OneSolid(Opener(kind)[0]);
    assert Opener(kind) == [Opener(kind)[0]];
    SolidPair(Label(name), Opener(kind));
    PutSolid(s, t);
    BeautifyVanishes(Put(s, t).(nest := s.nest + [kind]));
    PartialPush(stack, f);
    assert Terminated(f.members) == "";
    assert t + "" == t;
  }

  lemma PartialPush(stack: seq<Frame>, f: Frame)
    ensures Partial(stack + [f]) == Partial(stack) + (Label(f.name) + Opener(f.kind) + Terminated(f.members))
  {
    assert (stack + [f])[..|stack|] == stack;
  }

  /** Removing the character a close overwrites removes exactly the comma after the last member. */
  lemma DropLast(s: State, stack: seq<Frame>)
    requires Tracks(s, stack) && stack != []
    ensures var f := stack[|stack| - 1]; var t := s.file[..|s.file| - 1];
            Whole(t) && Compact(t) == Partial(stack[..|stack| - 1]) + (Label(f.name) + Opener(f.kind) + Join(f.members))
  {
    hide Label, Opener, Join, Terminated, Partial;
    var n := |stack| - 1;
    var f, t, c := stack[n], s.file[..|s.file| - 1], s.file[|s.file| - 1];
    assert s.file == t + [c] && [c][1..] == "";
    Glue(Out, t, [c]);
    assert Compact(s.file) == Compact(t) + if Blank(c) then "" else [c];
    PartialPush(stack[..n], f);
    assert stack == stack[..n] + [f];
    if f.members != [] {
      DropLastComma(f.members);
      CutComma(Compact(t), Partial(stack[..n]), Label(f.name) + Opener(f.kind), Join(f.members), Terminated(f.members));
    } else {
      NoMembers(f.members);
    }
  }

  lemma NoMembers(ms: seq<Member>)
    requires |ms| == 0
    ensures Terminated(ms) == Join(ms) == ""
  {
  }

  lemma CutComma(t: string, a: string, b: string, j: string, e: string)
    requires t + "," == a + (b + e) && e == j + ","
    ensures t == a + (b + j)
  {
    assert t + "," == (a + (b + j)) + ",";
    assert t == (t + ",")[..|t|];
    assert a + (b + j) == ((a + (b + j)) + ",")[..|t|];
  }

  /** The nesting a frame becomes when it is closed. */
  function Closed(f: Frame): Member {
    Member(f.name, Nest(f.kind, f.members))
  }

  lemma CloserWritten(s: State, stack: seq<Frame>)
    requires Tracks(s, stack) && stack != []
    ensures var f := stack[|stack| - 1]; var t := s.file[..|s.file| - 1] + Closer(f.kind);
            Whole(t) && Compact(t) == Partial(stack[..|stack| - 1]) + RenderMember(Closed(f))
  {
    hide Strip, End, Partial, Join, Label, Opener;
    var f := stack[|stack| - 1];
    DropLast(s, stack);
    OneSolid(Closer(f.kind)[0]);
    assert Closer(f.kind) == [Closer(f.kind)[0]];
    GlueWhole(s.file[..|s.file| - 1], Closer(f.kind));
    assert Render(Closed(f).value) == Opener(f.kind) + Join(f.members) + Closer(f.kind);
    CloseText(Partial(stack[..|stack| - 1]), Label(f.name), Opener(f.kind), Join(f.members), Closer(f.kind));
  }

  lemma CloseText(a: string, l: string, o: string, j: string, c: string)
    ensures a + (l + o + j) + c == a + (l + (o + j + c))
  {
  }

  /** close_nesting of an inner nesting: it becomes the last member of the one around it. */
  lemma CloseInnerTracks(s: State, stack: seq<Frame>)
    requires Tracks(s, stack) && |stack| >= 2
    ensures Tracks(CloseNesting(s), AddMember(stack[..|stack| - 1], Closed(stack[|stack| - 1])))
  {
    hide Strip, End, Partial, RenderMember, Terminated;
    var n := |stack| - 1;
    var f := stack[n];
    CloserWritten(s, stack);
    var c := State(s.file[..|s.file| - 1] + Closer(f.kind), s.nest[..n]);
    BeautifyVanishes(c);
    OneSolid(',');
    PutSolid(Beautified(c), ",");
    PartialAdds(stack[..n], Closed(f));
    Regroup(Partial(stack[..n]), RenderMember(Closed(f)), ",");
  }

  lemma Regroup(a: string, b: string, c: string)
    ensures a + b + c == a + (b + c)
  {
  }

  /** close_nesting of the outermost nesting leaves the compact text of the whole tree. */
  lemma CloseRootTracks(s: State, root: Frame)
    requires Tracks(s, [root])
    ensures CloseNesting(s).nest == [] && Whole(CloseNesting(s).file)
    ensures Compact(CloseNesting(s).file) == RenderMember(Closed(root))
  {
    hide Strip, End, RenderMember;
    CloserWritten(s, [root]);
    BeautifyVanishes(State(s.file[..|s.file| - 1] + Closer(root.kind), []));
    assert [root][..0] == [] && s.nest[..0] == [];
  }

  // ----- whole runs -----

  datatype Call = Write(name: string, value: string) | Open(title: Option<string>, kind: Kind) | Close

  function Do(s: State, c: Call): State {
    match c
    case Write(name, value) => WriteObj(s, name, value)
    case Open(title, kind) => OpenNesting(s, title, kind)
    case Close => CloseNesting(s)
  }

  function DoAll(s: State, calls: seq<Call>): State
    decreases |calls|
  {
    if calls == [] then s else Do(DoAll(s, calls[..|calls| - 1]), calls[|calls| - 1])
  }

  /** The destructor closes whatever is still open. */
  function CloseAll(s: State): State
    decreases |s.nest|
  {
    if s.nest == [] || s.file == "" then s else CloseAll(CloseNesting(s))
  }

  /** The independent account of the calls: the stack of open nestings and their members. */
  function Build(calls: seq<Call>): (stack: seq<Frame>)
    requires Legal(calls)
    ensures |stack| == Depth(calls) >= 1
    ensures stack[0].name == None && stack[0].kind == General
    decreases |calls|
  {
    if calls == [] then [Frame(None, General, [])]
    else
      var stack := Build(calls[..|calls| - 1]);
      match calls[|calls| - 1]
      case Write(name, value) => AddMember(stack, Written(name, value))
      case Open(title, kind) => stack + [Frame(title, kind, [])]
      case Close => AddMember(stack[..|stack| - 1], Closed(stack[|stack| - 1]))
  }

  /** Only nestings opened by a call are closed by a call; titles and values are anything. */
  predicate Legal(calls: seq<Call>)
    decreases |calls|
  {
    calls == [] || (Legal(calls[..|calls| - 1]) && (calls[|calls| - 1].Close? ==> Depth(calls[..|calls| - 1]) >= 2))
  }

  function Depth(calls: seq<Call>): int
    decreases |calls|
  {
    if calls == [] then 1
    else
      Depth(calls[..|calls| - 1]) +
      match calls[|calls| - 1]
      case Write(_, _) => 0
      case Open(_, _) => 1
      case Close => -1
  }

  /** The title a call writes. */
  function Title(c: Call): Option<string> {
    match c
    case Write(name, _) => Some(name)
    case Open(title, _) => title
    case Close => None
  }

  /** The title has its quotes balanced and no blank outside them, and the quotes of the value are balanced. */
  predicate Clean(c: Call) {
    Solid(Label(Title(c))) && (c.Write? ==> Whole(c.value))
  }

  predicate AllClean(calls: seq<Call>) {
    forall i :: 0 <= i < |calls| ==> Clean(calls[i])
  }

  /** After every legal sequence of clean calls the file tracks the tree. */
  lemma {:induction false} RunTracks(calls: seq<Call>)
    requires Legal(calls) && AllClean(calls)
    ensures Tracks(DoAll(Start(), calls), Build(calls))
    decreases |calls|
  {
    hide Clean, Tracks, WriteObj, OpenNesting, CloseNesting, Start;
    if calls == [] {
      StartTracks();
    } else {
      var before := calls[..|calls| - 1];
      RunTracks(before);
      StepTracks(DoAll(Start(), before), Build(before), calls);
    }
  }

  /** The character that the next close overwrites is a separating comma or a tab, whatever was written before. */
  lemma {:induction false} OverwritesSeparator(calls: seq<Call>)
    ensures var s := DoAll(Start(), calls); s.nest != [] ==> EndsIn(s.file, ',') || EndsIn(s.file, '\t')
    decreases |calls|
  {
    if calls == [] {
      StartTracks();
    } else {
      OverwritesSeparator(calls[..|calls| - 1]);
      CallEnds(DoAll(Start(), calls[..|calls| - 1]), calls[|calls| - 1]);
    }
  }

  lemma CallEnds(s: State, c: Call)
    requires s.nest != [] ==> s.file != ""
    ensures var t := Do(s, c); t.nest != [] ==> EndsIn(t.file, ',') || EndsIn(t.file, '\t')
  {
    match c
    case Write(_, _) =>
    case Open(_, kind) => TabsVanish(|s.nest| + 1);
    case Close =>
  }

  lemma StepTracks(s: State, stack: seq<Frame>, calls: seq<Call>)
    requires calls != [] && Legal(calls) && stack == Build(calls[..|calls| - 1]) && Tracks(s, stack)
    requires Clean(calls[|calls| - 1])
    ensures Tracks(Do(s, calls[|calls| - 1]), Build(calls))
  {
    hide Whole, Solid, Tracks, WriteObj, OpenNesting, CloseNesting;
    match calls[|calls| - 1]
    case Write(name, value) => WriteObjTracks(s, stack, name, value);
    case Open(title, kind) => OpenNestingTracks(s, stack, title, kind);
    case Close => CloseInnerTracks(s, stack);
  }

  /** Closing every open nesting, innermost first. */
  function Collapse(stack: seq<Frame>): (root: Frame)
    requires stack != []
    ensures root.name == stack[0].name && root.kind == stack[0].kind
    decreases |stack|
  {
    if |stack| == 1 then stack[0] else Collapse(AddMember(stack[..|stack| - 1], Closed(stack[|stack| - 1])))
  }

  lemma {:induction false} CloseAllRenders(s: State, stack: seq<Frame>)
    requires Tracks(s, stack) && stack != []
    ensures CloseAll(s).nest == [] && Compact(CloseAll(s).file) == RenderMember(Closed(Collapse(stack)))
    decreases |stack|
  {
    hide Whole, Compact, CloseNesting, Partial, RenderMember;
    if |stack| == 1 {
      assert stack == [stack[0]];
      CloseRootTracks(s, stack[0]);
    } else {
      CloseInnerTracks(s, stack);
      CloseAllRenders(CloseNesting(s), AddMember(stack[..|stack| - 1], Closed(stack[|stack| - 1])));
    }
  }

  /** The file at the end of a run. */
  function File(calls: seq<Call>): string {
    CloseAll(DoAll(Start(), calls)).file
  }

  /** The text of the call tree. */
  function TreeText(calls: seq<Call>): string
    requires Legal(calls)
  {
    Render(Nest(General, Collapse(Build(calls)).members))
  }

  /** With clean calls the file of every legal run ended by the destructor is, blanks outside strings removed, the
      compact rendering of the call tree. */
  lemma FileFollowsTree(calls: seq<Call>)
    requires Legal(calls) && AllClean(calls)
    ensures Compact(File(calls)) == TreeText(calls)
  {
    hide Compact, DoAll, Build, Tracks, CloseAll, Collapse;
    RunTracks(calls);
    CloseAllRenders(DoAll(Start(), calls), Build(calls));
    RootText(Collapse(Build(calls)));
  }

  lemma RootText(root: Frame)
    requires root.name == None && root.kind == General
    ensures RenderMember(Closed(root)) == Render(Nest(General, root.members))
  {
    hide Join;
    var r := Render(Nest(General, root.members));
    assert RenderMember(Closed(root)) == "" + r;
  }

  // ----- a title or a value that is not clean -----

  /** Behind x the text goes on with a blank, or with something else. */
  predicate GoesOn(x: string, blank: bool, t: string) {
    x <= t && if |t| > |x| then Blank(t[|x|]) == blank else !blank && !EndsIn(x, ',')
  }

  lemma GoesOnFurther(x: string, blank: bool, t: string, u: string)
    requires GoesOn(x, blank, t) && u != "" && !Blank(u[0])
    ensures GoesOn(x, blank, t + u)
  {
  }

  /** Replacing the last comma by a closer keeps it so. */
  lemma GoesOnClosed(x: string, blank: bool, y: string, k: Kind)
    requires GoesOn(x, blank, y + ",")
    ensures GoesOn(x, blank, y + Closer(k))
  {
    assert |x| <= |y|;
    assert (y + ",")[..|x|] == (y + Closer(k))[..|x|];
  }

  lemma CloseGoesOn(x: string, blank: bool, stack: seq<Frame>)
    requires stack != [] && GoesOn(x, blank, Partial(stack))
    ensures GoesOn(x, blank, Partial(stack[..|stack| - 1]) + RenderMember(Closed(stack[|stack| - 1])))
  {
    var f := stack[|stack| - 1];
    var y := ClosingText(stack);
    hide *;
    if f.members == [] {
      CloserShows(f.kind);
      GoesOnFurther(x, blank, y, Closer(f.kind));
    } else {
      GoesOnClosed(x, blank, y, f.kind);
    }
  }

  /** The text of the open nestings is y, or y and a comma, and closing the innermost one makes it y and a closer. */
  lemma ClosingText(stack: seq<Frame>) returns (y: string)
    requires stack != []
    ensures var f := stack[|stack| - 1];
            && Partial(stack) == (if f.members == [] then y else y + ",")
            && Partial(stack[..|stack| - 1]) + RenderMember(Closed(f)) == y + Closer(f.kind)
  {
    hide Partial, Join, Terminated, Label, Opener;
    var n := |stack| - 1;
    var f := stack[n];
    var base, head := Partial(stack[..n]), Label(f.name) + Opener(f.kind);
    assert stack == stack[..n] + [f];
    PartialPush(stack[..n], f);
    CloseText(base, Label(f.name), Opener(f.kind), Join(f.members), Closer(f.kind));
    y := base + (head + Join(f.members));
    if f.members == [] {
      NoMembers(f.members);
    } else {
      DropLastComma(f.members);
      Append(base, head, Join(f.members), ",");
    }
  }

  lemma CloserShows(k: Kind)
    ensures Closer(k) != "" && !Blank(Closer(k)[0])
  {
  }

  /** What the tree text holds after some calls stays there, and so does the kind of character behind it. */
  lemma {:induction false} TreeGoesOn(x: string, blank: bool, calls: seq<Call>, k: nat)
    requires Legal(calls) && k <= |calls| && Legal(calls[..k]) && GoesOn(x, blank, Partial(Build(calls[..k])))
    ensures GoesOn(x, blank, Partial(Build(calls)))
    decreases |calls|
  {
    hide GoesOn, Partial, RenderMember;
    if k < |calls| {
      var before := calls[..|calls| - 1];
      assert before[..k] == calls[..k];
      TreeGoesOn(x, blank, before, k);
      StepGoesOn(x, blank, calls);
    } else {
      assert calls[..k] == calls;
    }
  }

  lemma StepGoesOn(x: string, blank: bool, calls: seq<Call>)
    requires Legal(calls) && calls != [] && GoesOn(x, blank, Partial(Build(calls[..|calls| - 1])))
    ensures GoesOn(x, blank, Partial(Build(calls)))
  {
    hide GoesOn, Partial, Label, Opener, Compact;
    var stack := Build(calls[..|calls| - 1]);
    match calls[|calls| - 1]
    case Write(name, value) => WriteGoesOn(x, blank, stack, name, value);
    case Open(title, kind) => OpenGoesOn(x, blank, stack, title, kind);
    case Close => InnerGoesOn(x, blank, stack);
  }

  lemma WriteGoesOn(x: string, blank: bool, stack: seq<Frame>, name: string, value: string)
    requires stack != [] && GoesOn(x, blank, Partial(stack))
    ensures GoesOn(x, blank, Partial(AddMember(stack, Written(name, value))))
  {
    WrittenText(stack, name, value);
    LabelStarts(name);
    hide GoesOn, Partial, Label, Compact;
    GoesOnFurther(x, blank, Partial(stack), Label(Some(name)) + (Compact(value) + ","));
    Regroup(Partial(stack), Label(Some(name)), Compact(value) + ",");
  }

  lemma OpenGoesOn(x: string, blank: bool, stack: seq<Frame>, title: Option<string>, kind: Kind)
    requires GoesOn(x, blank, Partial(stack))
    ensures GoesOn(x, blank, Partial(stack + [Frame(title, kind, [])]))
  {
    OpenedText(stack, title, kind);
    if title.Some? {
      LabelStarts(title.value);
    }
    hide GoesOn, Partial;
    GoesOnFurther(x, blank, Partial(stack), Label(title) + Opener(kind));
    Regroup(Partial(stack), Label(title), Opener(kind));
  }

  lemma LabelStarts(name: string)
    ensures Label(Some(name)) != "" && !Blank(Label(Some(name))[0])
  {
  }

  lemma InnerGoesOn(x: string, blank: bool, stack: seq<Frame>)
    requires |stack| >= 2 && GoesOn(x, blank, Partial(stack))
    ensures GoesOn(x, blank, Partial(AddMember(stack[..|stack| - 1], Closed(stack[|stack| - 1]))))
  {
    hide GoesOn, Partial, RenderMember;
    var outer, m := stack[..|stack| - 1], Closed(stack[|stack| - 1]);
    CloseGoesOn(x, blank, stack);
    PartialAdds(outer, m);
    Regroup(Partial(outer), RenderMember(m), ",");
    GoesOnFurther(x, blank, Partial(outer) + RenderMember(m), ",");
  }

  lemma {:induction false} CollapseGoesOn(x: string, blank: bool, stack: seq<Frame>)
    requires stack != [] && GoesOn(x, blank, Partial(stack))
    ensures GoesOn(x, blank, RenderMember(Closed(Collapse(stack))))
    decreases |stack|
  {
    hide GoesOn, RenderMember;
    if |stack| == 1 {
      CloseGoesOn(x, blank, stack);
      assert stack[..0] == [];
      assert Partial(stack[..0]) + RenderMember(Closed(stack[0])) == RenderMember(Closed(stack[0]));
    } else {
      InnerGoesOn(x, blank, stack);
      CollapseGoesOn(x, blank, AddMember(stack[..|stack| - 1], Closed(stack[|stack| - 1])));
    }
  }

  /** Once more than head is in the file, head stays: a close overwrites only the last character. */
  predicate Holds(head: string, s: State) {
    head <= s.file && |s.file| > |head|
  }

  lemma DoHolds(head: string, s: State, c: Call)
    requires Holds(head, s)
    ensures Holds(head, Do(s, c))
  {
  }

  lemma {:induction false} DoAllHolds(head: string, s: State, calls: seq<Call>, k: nat)
    requires k <= |calls| && Holds(head, DoAll(s, calls[..k]))
    ensures Holds(head, DoAll(s, calls))
    decreases |calls|
  {
    hide Holds, Do;
    if k < |calls| {
      assert calls[..|calls| - 1][..k] == calls[..k];
      DoAllHolds(head, s, calls[..|calls| - 1], k);
      DoHolds(head, DoAll(s, calls[..|calls| - 1]), calls[|calls| - 1]);
    } else {
      assert calls[..k] == calls;
    }
  }

  lemma {:induction false} CloseAllHolds(head: string, s: State)
    requires Holds(head, s)
    ensures Holds(head, CloseAll(s))
    decreases |s.nest|
  {
    if s.nest != [] {
      DoHolds(head, s, Close);
      CloseAllHolds(head, CloseNesting(s));
    }
  }

  /** A text that, blanks removed, starts with x and goes on with the other kind of character. */
  predicate Departs(x: string, blank: bool, t: string) {
    x < Compact(t) && Blank(Compact(t)[|x|]) != blank
  }

  /** If the file departs from the tree at some point of the run, it is not the tree at the end. */
  lemma DepartsForGood(calls: seq<Call>, k: nat, head: string, x: string, blank: bool)
    requires Legal(calls) && k <= |calls| && Legal(calls[..k])
    requires Parted(head, x, blank, DoAll(Start(), calls[..k]), Build(calls[..k]))
    ensures Compact(File(calls)) != TreeText(calls)
  {
    hide Compact, DoAll, Build, CloseAll, Collapse, RenderMember, Partial, Legal;
    DoAllHolds(head, Start(), calls, k);
    CloseAllHolds(head, DoAll(Start(), calls));
    CompactPrefix(head, File(calls));
    TreeGoesOn(x, blank, calls, k);
    CollapseGoesOn(x, blank, Build(calls));
    RootText(Collapse(Build(calls)));
  }

  lemma {:induction false} FirstKept(t: string)
    ensures Compact(t) != "" ==> !Blank(Compact(t)[0])
    ensures t != "" && !Blank(t[|t| - 1]) ==> Compact(t) != ""
    decreases |t|
  {
    if t != "" && Blank(t[0]) {
      FirstKept(t[1..]);
    }
  }

  /** Where the first blank is taken out of a text that ends in no blank, something else follows. */
  lemma {:induction false} FirstStripped(s: Lex, t: string) returns (i: nat)
    requires Strip(s, t) != t && !Blank(t[|t| - 1])
    ensures i < |t| && i < |Strip(s, t)| && t[..i] == Strip(s, t)[..i] && Blank(t[i]) && !Blank(Strip(s, t)[i])
    decreases |t|
  {
    if s == Out && Blank(t[0]) {
      i := 0;
      FirstKept(t);
    } else {
      var u := Strip(Next(s, t[0]), t[1..]);
      assert Strip(s, t) == [t[0]] + u && t == [t[0]] + t[1..];
      i := FirstStripped(Next(s, t[0]), t[1..]);
      assert t[..i + 1] == [t[0]] + t[1..][..i] && Strip(s, t)[..i + 1] == [t[0]] + u[..i];
      i := i + 1;
    }
  }

  lemma LabelEnds(title: Option<string>)
    requires title.Some?
    ensures EndsIn(Label(title), ':')
  {
  }

  /** A title with a blank outside its strings: the file lacks the blank that the tree has. */
  lemma LabelStripped(file: string, l: string) returns (x: string)
    requires Whole(file) && Compact(l) != l && EndsIn(l, ':')
    ensures Departs(x, true, file + l) && GoesOn(x, true, Compact(file) + l)
  {
    var i := FirstStripped(Out, l);
    GlueWhole(file, l);
    hide Strip, End;
    x := Compact(file) + l[..i];
    assert Compact(file + l)[..|x|] == x && (Compact(file) + l)[..|x|] == x;
  }

  /** A text that leaves a string open: the blank written behind it is kept. */
  lemma BlankKept(file: string, t: string, feed: string)
    requires Whole(file) && !Whole(t) && (feed == " " || feed == "\n")
    ensures Departs(Compact(file) + Compact(t), false, file + t + feed)
  {
    GlueWhole(file, t);
    Glue(Out, file + t, feed);
    OneKept(End(Out, t), feed);
    hide Strip, End;
    assert Compact(file + t + feed) == Compact(file) + Compact(t) + feed;
  }

  lemma OneKept(l: Lex, t: string)
    requires l != Out && |t| == 1
    ensures Strip(l, t) == t
  {
    assert t[1..] == "" && Strip(Next(l, t[0]), "") == "";
    assert Strip(l, t) == [t[0]] + "";
  }

  lemma CompactPrefix(a: string, t: string)
    requires a <= t
    ensures Compact(a) <= Compact(t)
  {
    assert t == a + t[|a|..];
    Glue(Out, a, t[|a|..]);
  }

  lemma {:induction false} FirstUnclean(calls: seq<Call>) returns (k: nat)
    requires !AllClean(calls)
    ensures k < |calls| && !Clean(calls[k]) && AllClean(calls[..k])
    decreases |calls|
  {
    hide Clean;
    var before := calls[..|calls| - 1];
    if AllClean(before) {
      k := |calls| - 1;
    } else {
      k := FirstUnclean(before);
      assert calls[..k] == before[..k];
    }
  }

  lemma {:induction false} LegalPrefix(calls: seq<Call>, k: nat)
    requires Legal(calls) && k <= |calls|
    ensures Legal(calls[..k])
    decreases |calls|
  {
    if k < |calls| {
      assert calls[..|calls| - 1][..k] == calls[..k];
      LegalPrefix(calls[..|calls| - 1], k);
    } else {
      assert calls[..k] == calls;
    }
  }

  /** The file departs from the tree at x, for good. */
  ghost predicate Parted(head: string, x: string, blank: bool, s: State, stack: seq<Frame>) {
    Holds(head, s) && Departs(x, blank, head) && GoesOn(x, blank, Partial(stack))
  }

  /** What write_obj puts into the tree text behind the title. */
  lemma WrittenText(stack: seq<Frame>, name: string, value: string)
    requires stack != []
    ensures Partial(AddMember(stack, Written(name, value)))
         == Partial(stack) + Label(Some(name)) + (Compact(value) + ",")
    ensures !Blank((Compact(value) + ",")[0])
  {
    var m := Written(name, value);
    FirstKept(value);
    hide Partial, RenderMember, Label, Compact;
    PartialAdds(stack, m);
    assert RenderMember(m) == Label(Some(name)) + Compact(value) by { MemberText(name, Compact(value)); }
  }

  lemma MemberText(name: string, text: string)
    ensures RenderMember(Member(Some(name), Text(text))) == Label(Some(name)) + text
  {
  }

  lemma WriteParts(s: State, stack: seq<Frame>, name: string, value: string)
    returns (head: string, x: string, blank: bool)
    requires Whole(s.file) && Compact(s.file) == Partial(stack) && stack != [] && !Clean(Write(name, value))
    ensures Parted(head, x, blank, WriteObj(s, name, value), AddMember(stack, Written(name, value)))
  {
    var l := Label(Some(name));
    WrittenText(stack, name, value);
    WrittenFile(s, name, value);
    LabelEnds(Some(name));
    assert Compact(l) == l && Whole(l) ==> Solid(l) && !Whole(value);
    hide *;
    if Compact(l) != l {
      head, x, blank := TitleStripped(s.file, l, Compact(value) + ",");
    } else if !Whole(l) {
      head, x, blank := TitleOpen(s.file, l, Compact(value) + ",");
    } else {
      head, x, blank := ValueOpen(s.file, name, value);
    }
    PartedBy(head, x, blank, WriteObj(s, name, value), AddMember(stack, Written(name, value)));
  }

  lemma PartedBy(head: string, x: string, blank: bool, s: State, stack: seq<Frame>)
    requires Holds(head, s) && Departs(x, blank, head) && GoesOn(x, blank, Partial(stack))
    ensures Parted(head, x, blank, s, stack)
  {
    hide Holds, Departs, GoesOn, Partial;
  }

  lemma TitleStripped(file: string, l: string, rest: string) returns (head: string, x: string, blank: bool)
    requires Whole(file) && Compact(l) != l && EndsIn(l, ':') && rest != "" && !Blank(rest[0])
    ensures head == file + l && Departs(x, blank, head) && GoesOn(x, blank, Compact(file) + l + rest)
  {
    hide Compact, Whole, GoesOn, Departs;
    head, blank := file + l, true;
    x := LabelStripped(file, l);
    GoesOnFurther(x, true, Compact(file) + l, rest);
  }

  lemma TitleOpen(file: string, l: string, rest: string) returns (head: string, x: string, blank: bool)
    requires Whole(file) && Compact(l) == l && !Whole(l) && EndsIn(l, ':') && rest != "" && !Blank(rest[0])
    ensures head == file + l + " " && Departs(x, blank, head) && GoesOn(x, blank, Compact(file) + l + rest)
  {
    hide Compact, Whole, GoesOn, Departs;
    head, x, blank := file + l + " ", Compact(file) + l, false;
    BlankKept(file, l, " ");
    GoesOnNow(x);
    GoesOnFurther(x, false, x, rest);
  }

  lemma ValueOpen(file: string, name: string, value: string) returns (head: string, x: string, blank: bool)
    requires Whole(file) && Solid(Label(Some(name))) && !Whole(value)
    ensures var l := Label(Some(name));
            head == file + (l + " " + value) + "\n" && Departs(x, blank, head) &&
            GoesOn(x, blank, Compact(file) + l + (Compact(value) + ","))
  {
    var l := Label(Some(name));
    var t := l + " " + value;
    ObjectText(name, value);
    assert "\"" + name + "\": " + value == t;
    hide Compact, Whole, GoesOn, Departs, Label;
    head, x, blank := file + t + "\n", Compact(file) + (l + Compact(value)), false;
    BlankKept(file, t, "\n");
    GoesOnComma(x);
    assert x + "," == Compact(file) + l + (Compact(value) + ",");
  }

  lemma GoesOnNow(x: string)
    requires x != "" && x[|x| - 1] != ','
    ensures GoesOn(x, false, x)
  {
  }

  lemma GoesOnComma(x: string)
    ensures GoesOn(x, false, x + ",")
  {
  }

  lemma WrittenFile(s: State, name: string, value: string)
    ensures var l := Label(Some(name)); var t := WriteObj(s, name, value);
            Holds(s.file + l, t) && Holds(s.file + l + " ", t) && Holds(s.file + (l + " " + value) + "\n", t)
    ensures "\"" + name + "\": " + value == Label(Some(name)) + " " + value
  {
    var l := Label(Some(name));
    var rest := "\n" + Tabs(|s.nest|) + ",";
    assert WriteObj(s, name, value).file == s.file + (l + " " + value) + "\n" + (Tabs(|s.nest|) + ",");
    assert WriteObj(s, name, value).file == s.file + l + " " + (value + rest);
  }

  lemma OpenedFile(s: State, title: Option<string>, kind: Kind)
    ensures var l := Label(title); var t := OpenNesting(s, title, kind);
            Holds(s.file + l, t) && Holds(s.file + (l + Opener(kind)) + "\n", t)
  {
    var l := Label(title);
    assert OpenNesting(s, title, kind).file == s.file + (l + Opener(kind)) + "\n" + Tabs(|s.nest| + 1);
    assert OpenNesting(s, title, kind).file == s.file + l + (Opener(kind) + "\n" + Tabs(|s.nest| + 1));
  }

  lemma OpenerInside(l: string, kind: Kind)
    requires !Whole(l)
    ensures !Whole(l + Opener(kind)) && Compact(l + Opener(kind)) == Compact(l) + Opener(kind)
  {
    Glue(Out, l, Opener(kind));
    OneKept(End(Out, l), Opener(kind));
    assert Opener(kind)[1..] == "";
  }

  lemma OpenParts(s: State, stack: seq<Frame>, title: Option<string>, kind: Kind)
    returns (head: string, x: string, blank: bool)
    requires Whole(s.file) && Compact(s.file) == Partial(stack) && !Clean(Open(title, kind))
    ensures Parted(head, x, blank, OpenNesting(s, title, kind), stack + [Frame(title, kind, [])])
  {
    var l := Label(title);
    LabelEnds(title);
    OpenedFile(s, title, kind);
    OpenedText(stack, title, kind);
    assert Compact(l) == l ==> !Whole(l);
    hide *;
    if Compact(l) != l {
      head, x, blank := TitleStripped(s.file, l, Opener(kind));
    } else {
      head, x, blank := OpenTitle(s.file, l, kind);
    }
    PartedBy(head, x, blank, OpenNesting(s, title, kind), stack + [Frame(title, kind, [])]);
  }

  lemma OpenedText(stack: seq<Frame>, title: Option<string>, kind: Kind)
    ensures Partial(stack + [Frame(title, kind, [])]) == Partial(stack) + Label(title) + Opener(kind)
    ensures Opener(kind) != "" && !Blank(Opener(kind)[0])
  {
    hide Partial;
    PartialPush(stack, Frame(title, kind, []));
  }

  lemma OpenTitle(file: string, l: string, kind: Kind) returns (head: string, x: string, blank: bool)
    requires Whole(file) && Compact(l) == l && !Whole(l)
    ensures head == file + (l + Opener(kind)) + "\n" && Departs(x, blank, head)
    ensures GoesOn(x, blank, Compact(file) + l + Opener(kind))
  {
    var t := l + Opener(kind);
    OpenerInside(l, kind);
    hide Compact, Whole, GoesOn, Departs;
    head, x, blank := file + t + "\n", Compact(file) + t, false;
    BlankKept(file, t, "\n");
    assert x == Compact(file) + l + Opener(kind);
    GoesOnNow(x);
  }

  /** The first call that is not clean makes the file depart from the tree. */
  lemma UncleanBreaks(calls: seq<Call>, k: nat)
    requires Legal(calls) && k < |calls| && !Clean(calls[k]) && AllClean(calls[..k])
    ensures Compact(File(calls)) != TreeText(calls)
  {
    hide *;
    LegalPrefix(calls, k);
    LegalPrefix(calls, k + 1);
    RunTracks(calls[..k]);
    var s, stack := DoAll(Start(), calls[..k]), Build(calls[..k]);
    TracksParts(s, stack);
    CloseIsClean();
    NextCall(calls, k);
    var head, x, blank;
    match calls[k] {
      case Write(name, value) => head, x, blank := WriteParts(s, stack, name, value);
      case Open(title, kind) => head, x, blank := OpenParts(s, stack, title, kind);
    }
    DepartsForGood(calls, k + 1, head, x, blank);
  }

  lemma CloseIsClean()
    ensures Clean(Close)
  {
  }

  lemma TracksParts(s: State, stack: seq<Frame>)
    requires Tracks(s, stack)
    ensures Whole(s.file) && Compact(s.file) == Partial(stack)
  {
  }

  lemma NextCall(calls: seq<Call>, k: nat)
    requires k < |calls| && Legal(calls[..k + 1]) && Legal(calls[..k])
    ensures var s, t := DoAll(Start(), calls[..k]), DoAll(Start(), calls[..k + 1]);
            var before, after := Build(calls[..k]), Build(calls[..k + 1]);
            match calls[k]
            case Write(name, value) => t == WriteObj(s, name, value) && after == AddMember(before, Written(name, value))
            case Open(title, kind) => t == OpenNesting(s, title, kind) && after == before + [Frame(title, kind, [])]
            case Close => true
  {
    hide WriteObj, OpenNesting, CloseNesting, Start;
    assert calls[..k + 1][..k] == calls[..k];
  }

  /** The file is the compact rendering of the call tree if and only if every title and every value has its quotes
      balanced and no title has a blank outside them. */
  lemma FileIsTree(calls: seq<Call>)
    requires Legal(calls)
    ensures Compact(File(calls)) == TreeText(calls) <==> AllClean(calls)
  {
    hide Compact, File, TreeText, Legal, AllClean, Clean;
    if AllClean(calls) {
      FileFollowsTree(calls);
    } else {
      var k := FirstUnclean(calls);
      UncleanBreaks(calls, k);
    }
  }

  /** An option with a quote in it, printed between quotes as it stands. */
  lemma QuoteInOption(calls: seq<Call>)
    requires calls == [Write("server", "\"a\"b\"")]
    ensures Legal(calls) && Compact(File(calls)) != TreeText(calls)
  {
    hide Whole, Solid, Compact, File, TreeText;
    assert Legal(calls[..0]);
    QuoteLeftOpen(calls[0].value);
    FileIsTree(calls);
    assert !Clean(calls[0]);
  }

  lemma QuoteLeftOpen(v: string)
    requires v == "\"a\"b\""
    ensures !Whole(v)
  {
    var a, b, c, d, e := v[1..], v[2..], v[3..], v[4..], v[5..];
    assert a[1..] == b && b[1..] == c && c[1..] == d && d[1..] == e && e == "";
    assert End(Out, v) == End(In, a) == End(In, b) == End(Out, c) == End(Out, d) == End(In, e) == In;
  }

  // ----- titles taken from a command -----

  function FirstWord(command: string): string {
    if command == "" || command[0] == ' ' then "" else [command[0]] + FirstWord(command[1..])
  }

  function ToUpper(c: char): char {
    if 'a' <= c <= 'z' then c - 'a' + 'A' else c
  }

  /** command_name: the first word of the command as it was given, in upper case. */
  function CommandName(command: string): (name: string)
    ensures |name| == |FirstWord(command)|
  {
    seq(|FirstWord(command)|, i requires 0 <= i < |FirstWord(command)| => ToUpper(FirstWord(command)[i]))
  }

  function Quotes(t: string): nat {
    if t == "" then 0 else (if t[0] == '"' then 1 else 0) + Quotes(t[1..])
  }

  /** Without backslashes every quote opens or closes a string. */
  lemma {:induction false} QuotesToggle(s: Lex, t: string)
    requires s != Escape && '\\' !in t
    ensures End(s, t) == if Quotes(t) % 2 == 0 then s else if s == Out then In else Out
    decreases |t|
  {
    if t != "" {
      QuotesToggle(Next(s, t[0]), t[1..]);
    }
  }

  lemma {:induction false} UpperKeepsQuotes(t: string, u: string)
    requires |u| == |t| && forall i :: 0 <= i < |t| ==> u[i] == ToUpper(t[i])
    ensures Quotes(u) == Quotes(t) && ('\\' in u <==> '\\' in t)
    decreases |t|
  {
    if t != "" {
      UpperKeepsQuotes(t[1..], u[1..]);
      assert t == [t[0]] + t[1..] && u == [u[0]] + u[1..];
    }
  }

  lemma OddTitle(name: string)
    requires '\\' !in name && Quotes(name) % 2 == 1
    ensures !Whole(Label(Some(name)))
  {
    var l := Label(Some(name));
    assert l == ['"'] + (name + "\":") && l[1..] == name + "\":";
    Glue(In, name, "\":");
    QuotesToggle(In, name);
    OpenColon();
  }

  lemma OpenColon()
    ensures End(Out, "\":") == In
  {
    var t := "\":";
    assert t[1..] == ":" && t[1..][1..] == "";
  }

  /** A nesting titled with a command whose first word has an odd number of quotes breaks the file. */
  lemma QuoteInTitle(calls: seq<Call>, k: nat, command: string)
    requires Legal(calls) && k < |calls| && calls[k].Open? && calls[k].title == Some(CommandName(command))
    requires '\\' !in FirstWord(command) && Quotes(FirstWord(command)) % 2 == 1
    ensures Compact(File(calls)) != TreeText(calls)
  {
    UpperKeepsQuotes(FirstWord(command), CommandName(command));
    OddTitle(CommandName(command));
    assert !Clean(calls[k]);
    hide Compact, File, TreeText, Legal, Clean;
    FileIsTree(calls);
  }

  /** Such a command is 'a"b' c. */
  lemma QuotedCommand(command: string)
    requires command == "'a\"b' c"
    ensures FirstWord(command) == "'a\"b'" && '\\' !in FirstWord(command) && Quotes(FirstWord(command)) == 1
  {
    var a, b, c, d, e := command[1..], command[2..], command[3..], command[4..], command[5..];
    assert a[1..] == b && b[1..] == c && c[1..] == d && d[1..] == e && e[0] == ' ';
    assert FirstWord(e) == "" && FirstWord(d) == "'" && FirstWord(c) == "b'" && FirstWord(b) == "\"b'";
    assert FirstWord(a) == "a\"b'" && FirstWord(command) == "'a\"b'";
    OneQuote(FirstWord(command));
  }

  lemma OneQuote(w: string)
    requires w == "'a\"b'"
    ensures Quotes(w) == 1
  {
    var a, b, c, d, e := w[1..], w[2..], w[3..], w[4..], w[5..];
    assert a[1..] == b && b[1..] == c && c[1..] == d && d[1..] == e && e == "";
    assert Quotes(d) == 0 && Quotes(c) == 0 && Quotes(b) == 1 && Quotes(a) == 1;
  }

  predicate Blanks(t: string) {
    forall i :: 0 <= i < |t| ==> Blank(t[i])
  }

  lemma {:induction false} BlanksVanish(t: string)
    requires Blanks(t)
    ensures Whole(t) && Compact(t) == ""
    decreases |t|
  {
    if t != "" {
      BlanksVanish(t[1..]);
    }
  }

  /** A number padded on either side, as "%11u" and "%-10llu" print it, is written as the number. */
  lemma PaddedNumber(left: string, digits: string, right: string)
    requires Blanks(left) && Solid(digits) && Blanks(right)
    ensures Whole(left + digits + right) && Compact(left + digits + right) == digits
  {
    hide Strip, End;
    BlanksVanish(left);
    BlanksVanish(right);
    GlueWhole(left, digits);
    GlueWhole(left + digits, right);
  }

  // ----- how a file looks -----

  lemma TabsAre()
    ensures Tabs(0) == "" && Tabs(1) == "\t" && Tabs(2) == "\t\t"
  {
    assert Tabs(1) == Tabs(0) + "\t" && Tabs(2) == Tabs(1) + "\t";
  }

  lemma DoSnoc(calls: seq<Call>, c: Call)
    ensures DoAll(Start(), calls + [c]) == Do(DoAll(Start(), calls), c)
  {
    hide Do;
    assert (calls + [c])[..|calls|] == calls;
  }

  // a small report, call by call
  const REPORT_0: string := "{\n\t"
  const REPORT_1: string := "{\n\t\"Totals\":{\n\t\t"
  const REPORT_2: string := "{\n\t\"Totals\":{\n\t\t\"Ops\": 1\n\t\t,"
  const REPORT_3: string := "{\n\t\"Totals\":{\n\t\t\"Ops\": 1\n\t\t,\"Bytes\": 2\n\t\t,"
  const REPORT_4: string := "{\n\t\"Totals\":{\n\t\t\"Ops\": 1\n\t\t,\"Bytes\": 2\n\t\t}\n\t,"
  const REPORT: string := "{\n\t\"Totals\":{\n\t\t\"Ops\": 1\n\t\t,\"Bytes\": 2\n\t\t}\n\t}\n"

  lemma ReportOpens()
    ensures Start() == State(REPORT_0, [General])
    ensures OpenNesting(State(REPORT_0, [General]), Some("Totals"), General) == State(REPORT_1, [General, General])
  {
    TabsAre();
    hide Tabs;
  }

  lemma ReportOne()
    ensures WriteObj(State(REPORT_1, [General, General]), "Ops", "1") == State(REPORT_2, [General, General])
  {
    TabsAre();
    hide Tabs;
  }

  lemma ReportTwo()
    ensures WriteObj(State(REPORT_2, [General, General]), "Bytes", "2") == State(REPORT_3, [General, General])
  {
    TabsAre();
    hide Tabs;
  }

  lemma ReportCloses()
    ensures CloseNesting(State(REPORT_3, [General, General])) == State(REPORT_4, [General])
  {
    TabsAre();
    hide Tabs;
  }

  lemma ReportEnds()
    ensures CloseAll(State(REPORT_4, [General])) == State(REPORT, [])
  {
    TabsAre();
    hide Tabs, CloseAll;
    var s := CloseNesting(State(REPORT_4, [General]));
    assert s == State(REPORT, []);
    ClosedOnce(State(REPORT_4, [General]));
  }

  lemma ClosedOnce(s: State)
    requires |s.nest| == 1 && s.file != ""
    ensures CloseAll(s) == CloseNesting(s)
  {
  }

  /** A whole file: one line for each member and each closing bracket, one tab for each level, a comma only between
      members. */
  lemma SmallReport(open: Call, one: Call, two: Call)
    requires open == Open(Some("Totals"), General) && one == Write("Ops", "1") && two == Write("Bytes", "2")
    ensures File([open] + [one] + [two] + [Close]) == REPORT
  {
    var none: seq<Call> := [];
    assert none + [open] == [open];
    NoCalls(none);
    hide DoAll, CloseAll, Start, OpenNesting, WriteObj, CloseNesting;
    DoSnoc(none, open);
    DoSnoc([open], one);
    DoSnoc([open] + [one], two);
    DoSnoc([open] + [one] + [two], Close);
    ReportOpens();
    ReportOne();
    ReportTwo();
    ReportCloses();
    ReportEnds();
  }

  lemma NoCalls(calls: seq<Call>)
    requires calls == []
    ensures DoAll(Start(), calls) == Start()
  {
  }

  // ----- the object -----

  class JsonHandler {
    var file: string
    var pos: nat
    var nest: seq<Kind>

    ghost predicate AtEnd()
      reads this
    {
      pos == |file|
    }

    ghost function Now(): State
      reads this
    {
      State(file, nest)
    }

    constructor ()
      ensures AtEnd() && Now() == Start()
    {
      file, pos, nest := "", 0, [];
      new;
      Print("{");
      nest := nest + [General];
      Beautify(false);
    }

    /** fprintf at the current position. */
    method Print(t: string)
      requires pos <= |file|
      modifies this`file, this`pos
      ensures pos == old(pos) + |t| <= |file|
      ensures file[..pos] == old(file)[..old(pos)] + t
      ensures pos >= |old(file)| ==> AtEnd()
    {
      var end := pos + |t|;
      file := file[..pos] + t + if end < |file| then file[end..] else "";
      pos := end;
    }

    /** json_handler::beutify. */
    method Beautify(onlyTabs: bool)
      requires AtEnd()
      modifies this`file, this`pos
      ensures AtEnd() && file == old(file) + (if onlyTabs then "" else "\n") + Tabs(|nest|)
    {
      if !onlyTabs {
        Print("\n");
      }
      var nestLevel := |nest|;
      ghost var start := file;
      while nestLevel > 0
        invariant AtEnd() && 0 <= nestLevel <= |nest|
        invariant file == start + Tabs(|nest| - nestLevel)
      {
        Print("\t");
        nestLevel := nestLevel - 1;
      }
    }

    /** json_handler::write_obj; value is what the format prints. */
    method WriteObject(name: string, value: string)
      requires AtEnd()
      modifies this`file, this`pos
      ensures AtEnd() && Now() == WriteObj(old(Now()), name, value)
    {
      Print("\"" + name + "\": ");
      Print(value);
      assert file == old(file) + ("\"" + name + "\": " + value);
      Beautify(false);
      Print(",");
    }

    /** json_handler::open_nesting. */
    method Open(name: Option<string>, kind: Kind)
      requires AtEnd()
      modifies this
      ensures AtEnd() && Now() == OpenNesting(old(Now()), name, kind)
    {
      if name.Some? {
        Print("\"" + name.value + "\":");
      }
      Print(Opener(kind));
      assert file == old(file) + (Label(name) + Opener(kind));
      nest := nest + [kind];
      Beautify(false);
    }

    /** fseek one character back, then fprintf of one character. */
    method Overwrite(t: string)
      requires AtEnd() && file != "" && |t| == 1
      modifies this`file, this`pos
      ensures AtEnd() && file == old(file)[..|old(file)| - 1] + t
    {
      pos := pos - 1;
      Print(t);
    }

    /** json_handler::close_nesting. */
    method Close() returns (left: nat)
      requires AtEnd() && (nest != [] ==> file != "")
      modifies this
      ensures AtEnd() && Now() == CloseNesting(old(Now())) && left == |nest|
    {
      var nestLevel := |nest|;
      if nestLevel > 0 {
        var kind := nest[nestLevel - 1];
        nest := nest[..nestLevel - 1];
        Overwrite(Closer(kind));
        Beautify(false);
        if nestLevel > 1 {
          Print(",");
        }
      }
      left := |nest|;
    }

    /** The destructor. */
    method Finish()
      requires AtEnd() && (nest != [] ==> file != "")
      modifies this
      ensures AtEnd() && Now() == CloseAll(old(Now()))
    {
      hide CloseNesting;
      var left := |nest|;
      while left > 0
        invariant AtEnd() && left == |nest| && (nest != [] ==> file != "")
        invariant CloseAll(Now()) == CloseAll(old(Now()))
        decreases left
      {
        CloseShrinks(Now());
        left := Close();
      }
    }
  }

  lemma CloseShrinks(s: State)
    requires s.nest != [] && s.file != ""
    ensures |CloseNesting(s).nest| < |s.nest| && CloseNesting(s).file != ""
  {
  }
}
