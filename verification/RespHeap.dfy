/** redis_protocol::parse_response in its own form: a loop that drains a buffer and grows, in place, a
    tree of elements with links to their parents.  The methods are proved against `RespParser`. */
module RespHeap {
  import opened ByteStrings
  import opened RespCounter
  import opened RespParser
  import opened RespResume

  datatype Element = BulkEl(text: Bytes) | SizeEl(node: Mbulk)

  /** mbulk_size_el; `trees` records what its finished elements denote. */
  class Mbulk {
    var upperLevel: Mbulk?
    var bulksCount: int
    var elements: seq<Element>
    ghost var trees: seq<Tree>

    constructor (count: int, upper: Mbulk?)
      ensures bulksCount == count && upperLevel == upper && elements == [] && trees == []
    {
      bulksCount, upperLevel, elements, trees := count, upper, [], [];
    }

    method AddNewElement(e: Element)
      modifies this`elements, this`bulksCount
      ensures elements == old(elements) + [e] && bulksCount == old(bulksCount) - 1
    {
      elements := elements + [e];
      bulksCount := bulksCount - 1;
    }
  }

  /** The tree of values that an element denotes, read off its fields alone. */
  ghost predicate Represents(m: Mbulk, t: Tree, nodes: set<Mbulk>)
    reads nodes
    decreases t
  {
    && m in nodes
    && t.Branch?
    && |m.elements| == |t.items|
    && forall k :: 0 <= k < |t.items| ==>
         match m.elements[k]
         case BulkEl(text) => t.items[k] == Leaf(text)
         case SizeEl(node) => Represents(node, t.items[k], nodes)
  }

  ghost function FramesOf(chain: seq<Mbulk>): (fs: seq<Frame>)
    reads chain
    ensures |fs| == |chain|
    ensures forall i :: 0 <= i < |chain| ==> fs[i] == Frame(chain[i].bulksCount, chain[i].trees)
  {
    if chain == [] then [] else [Frame(chain[0].bulksCount, chain[0].trees)] + FramesOf(chain[1..])
  }

  // ----- the shape of the tree under construction -----

  /** The open elements are the path from the current one up to the response value; nodes holds them
      and the finished ones. */
  ghost predicate Linked(root: Mbulk?, chain: seq<Mbulk>, closed: set<Mbulk>, nodes: set<Mbulk>)
    reads nodes
  {
    && closed <= nodes
    && (forall i :: 0 <= i < |chain| ==> chain[i] in nodes && chain[i] !in closed)
    && (forall i, j :: 0 <= i < j < |chain| ==> chain[i] != chain[j])
    && (forall i {:trigger chain[i].upperLevel} :: 0 <= i < |chain| ==>
          chain[i].upperLevel == if i + 1 < |chain| then chain[i + 1] else null)
    && (if chain == [] then root != null ==> root in closed else root == chain[|chain| - 1])
  }

  /** The first |trees| sub-elements of n are finished and denote n.trees; extra more are there. */
  ghost predicate Denotes(n: Mbulk, extra: nat, closed: set<Mbulk>)
    reads n, closed
  {
    && |n.elements| == |n.trees| + extra
    && forall k :: 0 <= k < |n.trees| ==>
         match n.elements[k]
         case BulkEl(text) => n.trees[k] == Leaf(text)
         case SizeEl(m) => m in closed && n.trees[k] == Branch(m.trees)
  }

  ghost predicate WaitsFor(n: Mbulk, m: Mbulk)
    reads n
  {
    |n.elements| > |n.trees| && n.elements[|n.trees|] == SizeEl(m)
  }

  /** A finished element is all there; an open one that waits ends in the element it waits for. */
  ghost predicate Shaped(chain: seq<Mbulk>, closed: set<Mbulk>, nodes: set<Mbulk>)
    requires closed <= nodes && forall i :: 0 <= i < |chain| ==> chain[i] in nodes
    reads nodes
  {
    && (forall n :: n in closed ==> Denotes(n, 0, closed))
    && (forall i :: 0 <= i < |chain| ==> Denotes(chain[i], if i == 0 then 0 else 1, closed))
    && (forall i {:trigger chain[i].elements} :: 0 < i < |chain| ==> WaitsFor(chain[i], chain[i - 1]))
  }

  ghost predicate Grown(root: Mbulk?, chain: seq<Mbulk>, closed: set<Mbulk>, nodes: set<Mbulk>)
    reads nodes
  {
    Linked(root, chain, closed, nodes) && Shaped(chain, closed, nodes)
  }

  /** What the response value denotes once it is finished. */
  ghost function RootTree(root: Mbulk?, chain: seq<Mbulk>): Option<Tree>
    reads root
  {
    if root == null || chain != [] then None else Some(Branch(root.trees))
  }

  lemma DenotesMore(n: Mbulk, extra: nat, closed: set<Mbulk>, more: set<Mbulk>)
    requires Denotes(n, extra, closed) && closed <= more
    ensures Denotes(n, extra, more)
  {
  }

  /** The innermost open element is finished: its parent now has one more finished element. */
  ghost method LeaveForParent(up: Mbulk, root: Mbulk?, chain: seq<Mbulk>, closed: set<Mbulk>, nodes: set<Mbulk>)
    requires Grown(root, chain, closed, nodes) && |chain| > 1 && up == chain[1]
    modifies up`trees
    ensures Grown(root, chain[1..], closed + {chain[0]}, nodes)
    ensures up.trees == old(up.trees) + [Branch(chain[0].trees)]
  {
    up.trees := up.trees + [Branch(chain[0].trees)];
    var rest, shut := chain[1..], closed + {chain[0]};
    assert Linked(root, rest, shut, nodes);
    forall n | n in shut ensures Denotes(n, 0, shut) {
      DenotesMore(n, 0, closed, shut);
    }
    forall i | 0 <= i < |rest| ensures Denotes(rest[i], if i == 0 then 0 else 1, shut) {
      if i > 0 {
        DenotesMore(rest[i], 1, closed, shut);
      }
    }
  }

  lemma LeaveRoot(root: Mbulk?, chain: seq<Mbulk>, closed: set<Mbulk>, nodes: set<Mbulk>)
    requires Grown(root, chain, closed, nodes) && |chain| == 1
    ensures Grown(root, [], closed + {chain[0]}, nodes)
  {
    var shut := closed + {chain[0]};
    forall n | n in shut ensures Denotes(n, 0, shut) {
      DenotesMore(n, 0, closed, shut);
    }
  }

  lemma Innermost(root: Mbulk?, chain: seq<Mbulk>, closed: set<Mbulk>, nodes: set<Mbulk>)
    requires Grown(root, chain, closed, nodes) && chain != []
    ensures chain[0] in nodes && chain[0] !in chain[1..]
    ensures chain[0].upperLevel == if |chain| == 1 then null else chain[1]
    ensures |chain| > 1 ==> chain[1] in nodes && chain[1] != chain[0] && chain[1] !in chain[2..]
  {
  }

  lemma OpenHasRoot(root: Mbulk?, chain: seq<Mbulk>, closed: set<Mbulk>, nodes: set<Mbulk>)
    requires Grown(root, chain, closed, nodes)
    ensures root == null ==> chain == []
  {
  }

  /** A finished element denotes what was recorded for it. */
  lemma {:induction false} ClosedRepresents(m: Mbulk, t: Tree, closed: set<Mbulk>, nodes: set<Mbulk>)
    requires closed <= nodes && m in closed && t == Branch(m.trees)
    requires forall n :: n in closed ==> Denotes(n, 0, closed)
    ensures Represents(m, t, nodes)
    decreases t
  {
    assert Denotes(m, 0, closed);
    forall k | 0 <= k < |m.trees| && m.elements[k].SizeEl? ensures Represents(m.elements[k].node, t.items[k], nodes) {
      ClosedRepresents(m.elements[k].node, t.items[k], closed, nodes);
    }
  }

  lemma RootRepresents(root: Mbulk, closed: set<Mbulk>, nodes: set<Mbulk>)
    requires Grown(root, [], closed, nodes)
    ensures Represents(root, Branch(root.trees), nodes)
  {
    ClosedRepresents(root, Branch(root.trees), closed, nodes);
  }

  lemma ForgetRoot(root: Mbulk?, closed: set<Mbulk>, nodes: set<Mbulk>)
    requires Grown(root, [], closed, nodes)
    ensures Grown(null, [], closed, nodes)
  {
  }

  lemma FramesTail(chain: seq<Mbulk>)
    requires chain != []
    ensures FramesOf(chain) == [Frame(chain[0].bulksCount, chain[0].trees)] + FramesOf(chain[1..])
  {
  }

  /** The parent of a finished element, with that element added to its finished ones. */
  ghost function Parent(fs: seq<Frame>): Frame
    requires |fs| > 1
  {
    fs[1].(items := fs[1].items + [Branch(fs[0].items)])
  }

  lemma SettleInner(fs: seq<Frame>, tree: Option<Tree>)
    requires |fs| > 1 && fs[0].left == 0
    ensures Settle(fs, tree) == Settle([Parent(fs)] + fs[2..], tree)
  {
  }

  lemma SettleLast(fs: seq<Frame>, tree: Option<Tree>)
    requires |fs| == 1 && fs[0].left == 0
    ensures Settle(fs, tree) == ([], Some(Branch(fs[0].items)))
  {
  }

  lemma SettleNone(fs: seq<Frame>, tree: Option<Tree>)
    requires |fs| == 0
    ensures Settle(fs, tree) == ([], tree)
  {
  }

  lemma FramesRest(chain: seq<Mbulk>)
    requires |chain| > 1
    ensures FramesOf(chain)[2..] == FramesOf(chain[2..])
    ensures FramesOf(chain[1..]) == [Frame(chain[1].bulksCount, chain[1].trees)] + FramesOf(chain[2..])
  {
    FramesTail(chain);
    FramesTail(chain[1..]);
    assert chain[1..][1..] == chain[2..];
  }

  /** Leaving an element that is inside another one. */
  ghost method LeaveInner(up: Mbulk, root: Mbulk?, chain: seq<Mbulk>, closed: set<Mbulk>, nodes: set<Mbulk>)
    requires Grown(root, chain, closed, nodes) && |chain| > 1 && up == chain[1]
    modifies up`trees
    ensures Grown(root, chain[1..], closed + {chain[0]}, nodes)
    ensures FramesOf(chain[1..]) == [Parent(old(FramesOf(chain)))] + old(FramesOf(chain))[2..]
  {
    hide Grown, FramesOf;
    Innermost(root, chain, closed, nodes);
    FramesRest(chain);
    LeaveForParent(up, root, chain, closed, nodes);
    FramesRest(chain);
  }

  /** One turn of get_next_mbulk's loop does what one unfolding of `Settle` does. */
  ghost method Leave(up: Mbulk?, root: Mbulk?, chain: seq<Mbulk>, closed: set<Mbulk>, nodes: set<Mbulk>)
    requires Grown(root, chain, closed, nodes) && chain != []
    requires up == chain[0].upperLevel && chain[0].bulksCount == 0
    modifies (if up == null then {} else {up})`trees
    ensures Grown(root, chain[1..], closed + {chain[0]}, nodes)
    ensures up == if |chain| == 1 then null else chain[1]
    ensures Settle(FramesOf(chain[1..]), RootTree(root, chain[1..]))
         == old(Settle(FramesOf(chain), RootTree(root, chain)))
  {
    hide Grown, FramesOf, Settle, Parent;
    Innermost(root, chain, closed, nodes);
    if up != null {
      SettleInner(FramesOf(chain), None);
      LeaveInner(up, root, chain, closed, nodes);
    } else {
      LeaveRoot(root, chain, closed, nodes);
      RootIs(root, chain, closed, nodes);
      SettleLast(FramesOf(chain), None);
      assert chain[1..] == [];
      SettleNone(FramesOf(chain[1..]), RootTree(root, chain[1..]));
    }
  }

  lemma RootIs(root: Mbulk?, chain: seq<Mbulk>, closed: set<Mbulk>, nodes: set<Mbulk>)
    requires Grown(root, chain, closed, nodes) && |chain| == 1
    ensures root == chain[0]
  {
  }

  /** get_next_mbulk, started at the innermost open element. */
  method NextMbulk(start: Mbulk, ghost root: Mbulk?, ghost chain: seq<Mbulk>, ghost closed: set<Mbulk>,
                   ghost nodes: set<Mbulk>)
    returns (next: Mbulk?, ghost open: seq<Mbulk>, ghost shut: set<Mbulk>)
    requires Grown(root, chain, closed, nodes) && chain != [] && start == chain[0]
    modifies nodes`trees
    ensures Grown(root, open, shut, nodes)
    ensures next == if open == [] then null else open[0]
    ensures (FramesOf(open), RootTree(root, open)) == Settle(old(FramesOf(chain)), None)
  {
    hide Grown, FramesOf;
    next, open, shut := start, chain, closed;
    while next != null && next.bulksCount == 0
      invariant Grown(root, open, shut, nodes)
      invariant next == if open == [] then null else open[0]
      invariant Settle(FramesOf(open), RootTree(root, open)) == Settle(old(FramesOf(chain)), None)
      decreases |open|
    {
      var up := next.upperLevel;
      Innermost(root, open, shut, nodes);
      Leave(up, root, open, shut, nodes);
      next, open, shut := up, open[1..], shut + {open[0]};
    }
  }

  /** add_new_element of a bulk on the innermost open element. */
  method AddToCurrent(current: Mbulk, text: Bytes, ghost root: Mbulk?, ghost chain: seq<Mbulk>,
                      ghost closed: set<Mbulk>, ghost nodes: set<Mbulk>)
    requires Grown(root, chain, closed, nodes) && chain != [] && current == chain[0]
    modifies current
    ensures Grown(root, chain, closed, nodes)
    ensures current.bulksCount == old(current.bulksCount) - 1
    ensures current.trees == old(current.trees) + [Leaf(text)]
  {
    current.AddNewElement(BulkEl(text));
    current.trees := current.trees + [Leaf(text)];
    assert Linked(root, chain, closed, nodes);
    assert Denotes(current, 0, closed);
    assert forall n :: n in closed ==> Denotes(n, 0, closed);
    assert forall i :: 0 < i < |chain| ==> Denotes(chain[i], 1, closed);
  }

  /** A bulk arrives inside an array. */
  method AddBulk(current: Mbulk, text: Bytes, ghost root: Mbulk?, ghost chain: seq<Mbulk>,
                 ghost closed: set<Mbulk>, ghost nodes: set<Mbulk>)
    returns (next: Mbulk?, ghost open: seq<Mbulk>, ghost shut: set<Mbulk>)
    requires Grown(root, chain, closed, nodes) && chain != [] && current == chain[0]
    modifies nodes
    ensures Grown(root, open, shut, nodes)
    ensures next == if open == [] then null else open[0]
    ensures (FramesOf(open), RootTree(root, open)) == AddElement(old(FramesOf(chain)), None, Leaf(text))
  {
    hide Grown;
    ghost var frames := FramesOf(chain);
    Innermost(root, chain, closed, nodes);
    FramesTail(chain);
    AddToCurrent(current, text, root, chain, closed, nodes);
    assert FramesOf(chain) == [Frame(frames[0].left - 1, frames[0].items + [Leaf(text)])] + frames[1..];
    next, open, shut := NextMbulk(current, root, chain, closed, nodes);
  }

  /** A new element becomes the response value. */
  method NewRoot(count: nat, ghost closed: set<Mbulk>, ghost nodes: set<Mbulk>) returns (node: Mbulk)
    requires Grown(null, [], closed, nodes)
    ensures fresh(node)
    ensures Grown(node, [node], closed, nodes + {node})
    ensures FramesOf([node]) == [Frame(count, [])]
  {
    node := new Mbulk(count, null);
    assert node !in nodes;
    assert Linked(node, [node], closed, nodes + {node});
    assert forall n :: n in closed ==> Denotes(n, 0, closed);
  }

  lemma LinkedWith(node: Mbulk, root: Mbulk?, chain: seq<Mbulk>, closed: set<Mbulk>, nodes: set<Mbulk>)
    requires Linked(root, chain, closed, nodes) && chain != []
    requires node !in nodes && node.upperLevel == chain[0]
    ensures Linked(root, [node] + chain, closed, nodes + {node})
  {
  }

  lemma ShapedWith(node: Mbulk, chain: seq<Mbulk>, closed: set<Mbulk>, nodes: set<Mbulk>)
    requires closed <= nodes && chain != [] && forall i :: 0 <= i < |chain| ==> chain[i] in nodes
    requires forall n :: n in closed ==> Denotes(n, 0, closed)
    requires Denotes(node, 0, closed) && forall i :: 0 <= i < |chain| ==> Denotes(chain[i], 1, closed)
    requires WaitsFor(chain[0], node)
    requires forall i {:trigger chain[i].elements} :: 0 < i < |chain| ==> WaitsFor(chain[i], chain[i - 1])
    ensures Shaped([node] + chain, closed, nodes + {node})
  {
  }

  /** A new element becomes the last one of the current element, and the current one itself. */
  method Attach(node: Mbulk, current: Mbulk, ghost root: Mbulk?, ghost chain: seq<Mbulk>,
                ghost closed: set<Mbulk>, ghost nodes: set<Mbulk>)
    requires Grown(root, chain, closed, nodes) && chain != [] && current == chain[0]
    requires node !in nodes && node.upperLevel == current && node.elements == [] && node.trees == []
    modifies current`elements, current`bulksCount
    ensures Grown(root, [node] + chain, closed, nodes + {node})
    ensures current.bulksCount == old(current.bulksCount) - 1
  {
    current.AddNewElement(SizeEl(node));
    LinkedWith(node, root, chain, closed, nodes);
    assert Denotes(current, 1, closed);
    assert forall n :: n in closed ==> Denotes(n, 0, closed);
    assert forall i :: 0 < i < |chain| ==> Denotes(chain[i], 1, closed);
    ShapedWith(node, chain, closed, nodes);
  }

  /** A '*' line outside any array. */
  method OpenRoot(count: nat, ghost closed: set<Mbulk>, ghost nodes: set<Mbulk>)
    returns (root: Mbulk, next: Mbulk?, ghost open: seq<Mbulk>, ghost shut: set<Mbulk>, ghost all: set<Mbulk>)
    requires Grown(null, [], closed, nodes)
    ensures Grown(root, open, shut, all) && fresh(all - nodes)
    ensures next == if open == [] then null else open[0]
    ensures (FramesOf(open), RootTree(root, open)) == OpenArray([], None, count)
    modifies nodes`trees
  {
    root := NewRoot(count, closed, nodes);
    all := nodes + {root};
    next, open, shut := NextMbulk(root, root, [root], closed, all);
  }

  lemma FramesWith(node: Mbulk, chain: seq<Mbulk>)
    requires chain != []
    ensures FramesOf([node] + chain)
         == [Frame(node.bulksCount, node.trees), Frame(chain[0].bulksCount, chain[0].trees)] + FramesOf(chain[1..])
  {
  }

  method NewChild(count: nat, current: Mbulk, ghost root: Mbulk?, ghost chain: seq<Mbulk>,
                  ghost closed: set<Mbulk>, ghost nodes: set<Mbulk>)
    returns (node: Mbulk)
    requires Grown(root, chain, closed, nodes) && chain != [] && current == chain[0]
    modifies current`elements, current`bulksCount
    ensures fresh(node)
    ensures Grown(root, [node] + chain, closed, nodes + {node})
    ensures node.bulksCount == count && node.trees == [] && current.bulksCount == old(current.bulksCount) - 1
  {
    node := new Mbulk(count, current);
    Attach(node, current, root, chain, closed, nodes);
  }

  method PushChild(count: nat, current: Mbulk, ghost root: Mbulk?, ghost chain: seq<Mbulk>,
                   ghost closed: set<Mbulk>, ghost nodes: set<Mbulk>)
    returns (node: Mbulk)
    requires Grown(root, chain, closed, nodes) && chain != [] && current == chain[0]
    modifies current`elements, current`bulksCount
    ensures fresh(node)
    ensures Grown(root, [node] + chain, closed, nodes + {node})
    ensures var frames := old(FramesOf(chain));
            FramesOf([node] + chain) == [Frame(count, []), frames[0].(left := frames[0].left - 1)] + frames[1..]
  {
    hide Grown;
    Innermost(root, chain, closed, nodes);
    FramesTail(chain);
    node := NewChild(count, current, root, chain, closed, nodes);
    FramesWith(node, chain);
  }

  /** A '*' line inside an array. */
  method OpenChild(count: nat, current: Mbulk, ghost root: Mbulk?, ghost chain: seq<Mbulk>,
                   ghost closed: set<Mbulk>, ghost nodes: set<Mbulk>)
    returns (next: Mbulk?, ghost open: seq<Mbulk>, ghost shut: set<Mbulk>, ghost all: set<Mbulk>)
    requires Grown(root, chain, closed, nodes) && chain != [] && current == chain[0]
    modifies nodes
    ensures Grown(root, open, shut, all) && fresh(all - nodes)
    ensures next == if open == [] then null else open[0]
    ensures (FramesOf(open), RootTree(root, open)) == OpenArray(old(FramesOf(chain)), None, count)
  {
    hide Grown, FramesOf, Settle;
    Innermost(root, chain, closed, nodes);
    var node := PushChild(count, current, root, chain, closed, nodes);
    all := nodes + {node};
    next, open, shut := NextMbulk(node, root, [node] + chain, closed, all);
  }

  class RedisProtocol {
    var readBuf: Bytes
    var keepValue: bool
    var mode: Mode
    var bulkLen: int
    var responseLen: nat
    var totalBulks: nat
    var currentMbulk: Mbulk?

    // m_last_response: its element tree, and the rest of it
    var mbulkValue: Mbulk?
    var reply: Reply

    ghost var chain: seq<Mbulk>    // currentMbulk and its upper levels
    ghost var closed: set<Mbulk>   // finished elements
    ghost var nodes: set<Mbulk>    // all elements of the tree under construction

    ghost function View(): Parser
      reads this, nodes
      requires Grown(mbulkValue, chain, closed, nodes)
    {
      Parser(keepValue, mode, bulkLen, responseLen, totalBulks, FramesOf(chain),
             reply.(tree := RootTree(mbulkValue, chain)))
    }

    /** The fields describe one tree under construction. */
    ghost predicate Sound()
      reads this, nodes
    {
      Grown(mbulkValue, chain, closed, nodes) && currentMbulk == (if chain == [] then null else chain[0])
    }

    /** The counter is consistent with the tree, overflow included; without keep-value there is no tree. */
    ghost predicate Valid()
      reads this, nodes
    {
      && Sound()
      && (if keepValue then Consistent(View()) else chain == [])
      && (!mode.Initial? && chain == [] ==> mbulkValue == null)
    }

    constructor ()
      ensures Valid() && View() == NEW_PARSER && readBuf == []
    {
      readBuf, keepValue, mode, bulkLen, responseLen, totalBulks := [], false, Initial, 0, 0, 0;
      currentMbulk, mbulkValue, chain, closed, nodes := null, null, [], {}, {};
      reply := EMPTY_REPLY;
    }

    /** protocol_response::clear and the start of a reply. */
    method Clear()
      requires Valid() && mode.Initial? && chain == []
      modifies this
      ensures Valid() && nodes == old(nodes) && readBuf == old(readBuf)
      ensures More(View()) == Step(old(View()), []).turn
    {
      ForgetRoot(mbulkValue, closed, nodes);
      hide Grown, FramesOf;
      mbulkValue, reply, responseLen, totalBulks, mode := null, EMPTY_REPLY, 0, 0, ReadLine;
    }

    /** Keep-value, '*': a new element, as the response value or inside the current one. */
    method KeepArray(count: nat)
      requires Sound() && (chain == [] ==> mbulkValue == null)
      modifies this`mbulkValue, this`currentMbulk, this`chain, this`closed, this`nodes, nodes
      ensures Sound() && fresh(nodes - old(nodes))
      ensures (FramesOf(chain), RootTree(mbulkValue, chain)) == OpenArray(old(FramesOf(chain)), None, count)
    {
      hide Grown, FramesOf, Settle, OpenArray;
      OpenHasRoot(mbulkValue, chain, closed, nodes);
      if mbulkValue == null {
        mbulkValue, currentMbulk, chain, closed, nodes := OpenRoot(count, closed, nodes);
      } else {
        currentMbulk, chain, closed, nodes := OpenChild(count, currentMbulk, mbulkValue, chain, closed, nodes);
      }
    }

    /** Keep-value inside an array: a bulk or a line becomes an element of the current one. */
    method KeepBulk(text: Bytes)
      requires Sound() && currentMbulk != null
      modifies this`currentMbulk, this`chain, this`closed, nodes
      ensures Sound()
      ensures (FramesOf(chain), RootTree(mbulkValue, chain)) == AddElement(old(FramesOf(chain)), None, Leaf(text))
    {
      hide Grown, FramesOf, Settle;
      currentMbulk, chain, closed := AddBulk(currentMbulk, text, mbulkValue, chain, closed, nodes);
    }

    /** No response value is complete while an element is being received. */
    lemma NoTreeYet()
      requires Sound() && (chain == [] ==> mbulkValue == null)
      ensures RootTree(mbulkValue, chain) == None
    {
    }

    /** A '*' line. */
    method CountArray(line: Bytes)
      requires Sound() && line != [] && (chain == [] ==> mbulkValue == null) && (keepValue || chain == [])
      modifies this`reply, this`totalBulks
      modifies this`mbulkValue, this`currentMbulk, this`chain, this`closed, this`nodes, nodes
      ensures Sound() && fresh(nodes - old(nodes))
      ensures View() == AfterArray(old(View()), line, ArrayCount(line))
      ensures !keepValue ==> chain == [] && mbulkValue == null
    {
      hide Grown, FramesOf, OpenArray, ArrayCount, CString, U32, RootTree;
      NoTreeYet();
      var count := ArrayCount(line);
      if keepValue {
        KeepArray(count);
      }
      NoteArray(line, count);
    }

    /** The counter and the status line of a '*' line. */
    method NoteArray(line: Bytes, count: nat)
      modifies this`reply, this`totalBulks
      ensures reply == old(reply).(status := Some(CString(line)))
      ensures totalBulks == U32((if old(totalBulks) > 0 then old(totalBulks) - 1 else 0) + count)
    {
      hide CString, U32;
      var outer := totalBulks;
      if totalBulks > 0 {
        outer := outer - 1;
      }
      reply, totalBulks := reply.(status := Some(CString(line))), U32(outer + count);
    }

    /** A '$' line. */
    method CountBulk(line: Bytes)
      requires Sound() && line != []
      modifies this`totalBulks, this`bulkLen, this`reply, this`mode
      ensures Sound()
      ensures View() == AfterBulkHeader(old(View()), line)
    {
      hide Grown, FramesOf, CString, HeaderNumber;
      var len := HeaderNumber(line);
      reply := reply.(status := Some(CString(line)));
      totalBulks := if totalBulks == 0 then 1 else totalBulks;
      bulkLen, mode := len, if len < 0 then EndBulk else ReadBulk;
    }

    /** A '+', '-' or ':' line. */
    method CountSimple(line: Bytes)
      requires Sound() && line != [] && (chain == [] ==> mbulkValue == null) && (keepValue || chain == [])
      modifies this`reply, this`totalBulks, this`currentMbulk, this`chain, this`closed, nodes
      ensures Sound()
      ensures View() == AfterSimple(old(View()), line)
      ensures chain == [] && old(chain) == [] ==> mbulkValue == null
      ensures !keepValue ==> chain == [] && mbulkValue == null
    {
      hide Grown, FramesOf, CString, AddElement, RootTree;
      NoTreeYet();
      OpenHasRoot(mbulkValue, chain, closed, nodes);
      var count, text := totalBulks, CString(line);
      if count == 0 {
        count := count + 1;
      }
      if keepValue && currentMbulk != null {
        KeepBulk(text);
      }
      reply, totalBulks := reply.(status := Some(text), error := reply.error || line[0] == MINUS), count - 1;
    }

    /** The end of a bulk whose bytes are data. */
    method TakeBulk(data: Bytes)
      requires Sound() && (keepValue || chain == []) && (chain == [] ==> mbulkValue == null)
      modifies this, nodes
      ensures Sound() && nodes == old(nodes) && readBuf == old(readBuf)
      ensures View() == AfterBulk(old(View()), data)
      ensures chain == [] && old(chain) == [] ==> mbulkValue == null
      ensures !keepValue ==> chain == [] && mbulkValue == null
    {
      hide Grown, FramesOf, AddElement, RootTree;
      NoTreeYet();
      if keepValue {
        if currentMbulk != null {
          KeepBulk(data);
        } else {
          reply := reply.(value := data);
        }
      }
      totalBulks := U32(totalBulks - 1);
    }

    /** Is the reply complete? */
    method Finished() returns (done: bool)
      requires Sound()
      modifies this`reply, this`mode
      ensures Sound()
      ensures (if done then Done(1, View()) else More(View())) == Finish(old(View()))
    {
      hide Grown, FramesOf;
      done := totalBulks == 0;
      if done {
        reply := reply.(totalLen := U32(responseLen));
        mode := Initial;
      } else {
        mode := ReadLine;
      }
    }

    /** The state between two turns in which an element is completed. */
    ghost predicate BetweenElements()
      reads this, nodes
    {
      Sound() && (chain == [] ==> mbulkValue == null) && (keepValue || chain == [])
    }

    /** Once the element is counted: is the reply over?  If the tree is closed it must be. */
    method Conclude() returns (done: bool)
      requires Sound() && (keepValue || (chain == [] && mbulkValue == null))
      requires keepValue ==> Consistent(Finish(View()).p)
      modifies this`reply, this`mode
      ensures Valid()
      ensures (if done then Done(1, View()) else More(View())) == Finish(old(View()))
    {
      done := Finished();
      assert chain == [] ==> View().frames == [];
    }

    method HandleArray(line: Bytes) returns (done: bool)
      requires BetweenElements() && line != []
      requires keepValue ==> Consistent(Finish(AfterArray(View(), line, ArrayCount(line))).p)
      modifies this, nodes
      ensures Valid() && fresh(nodes - old(nodes)) && readBuf == old(readBuf)
      ensures (if done then Done(1, View()) else More(View()))
           == Finish(AfterArray(old(View()), line, ArrayCount(line)))
    {
      hide Grown, FramesOf, Consistent, AfterArray, ArrayCount, Finish;
      CountArray(line);
      done := Conclude();
    }

    method HandleSimple(line: Bytes) returns (done: bool)
      requires BetweenElements() && line != []
      requires keepValue ==> Consistent(Finish(AfterSimple(View(), line)).p)
      modifies this, nodes
      ensures Valid() && nodes == old(nodes) && readBuf == old(readBuf)
      ensures (if done then Done(1, View()) else More(View())) == Finish(AfterSimple(old(View()), line))
    {
      hide Grown, FramesOf, Consistent, AfterSimple, Finish;
      CountSimple(line);
      done := Conclude();
    }

    method HandleBulkEnd(data: Bytes) returns (done: bool)
      requires BetweenElements()
      requires keepValue ==> Consistent(OnBulkEnd(View(), data).p)
      modifies this, nodes
      ensures Valid() && nodes == old(nodes) && readBuf == old(readBuf)
      ensures (if done then Done(1, View()) else More(View())) == OnBulkEnd(old(View()), data)
    {
      hide Grown, FramesOf, Consistent, AfterBulk, Finish;
      TakeBulk(data);
      done := Conclude();
    }

    method HandleBulkHeader(line: Bytes)
      requires BetweenElements() && line != []
      requires keepValue ==> Consistent(AfterBulkHeader(View(), line))
      modifies this`totalBulks, this`bulkLen, this`reply, this`mode
      ensures Valid()
      ensures View() == AfterBulkHeader(old(View()), line)
    {
      hide Grown, FramesOf, Consistent, AfterBulkHeader;
      CountBulk(line);
    }

    /** The three-way switch on the first character of a line. */
    method HandleCounted(line: Bytes) returns (done: bool, code: int)
      requires Valid() && mode.ReadLine?
      requires keepValue ==> Consistent(Dispatch(View(), line).p)
      modifies this, nodes
      ensures Valid() && fresh(nodes - old(nodes)) && readBuf == old(readBuf)
      ensures (if done then Done(code, View()) else More(View())) == Dispatch(old(View()), line)
    {
      hide Grown, FramesOf, Consistent, AfterArray, AfterSimple, AfterBulkHeader, ArrayCount, Finish;
      var head := LineHead(line);
      done, code := false, 0;
      if head == STAR {
        done := HandleArray(line);
        code := 1;
      } else if head == DOLLAR {
        HandleBulkHeader(line);
      } else if head == PLUS || head == MINUS || head == COLON {
        done := HandleSimple(line);
        code := 1;
      } else {
        done, code := true, -1;
      }
    }

    method HandleLine(line: Bytes) returns (done: bool, code: int)
      requires Valid() && mode.ReadLine?
      modifies this, nodes
      ensures Valid() && fresh(nodes - old(nodes)) && readBuf == old(readBuf)
      ensures (if done then Done(code, View()) else More(View())) == OnLine(old(View()), line)
    {
      hide Grown, FramesOf, Dispatch, LineOverflows, Consistent;
      ghost var p := View();
      if keepValue {
        LineFollows(p, line);
        CountingFollows(p, |line| + 2);
      }
      responseLen := responseLen + |line| + 2;
      assert View() == p.(respLen := p.respLen + |line| + 2);
      done, code := HandleCounted(line);
    }

    method HandleBulkReceived()
      requires Valid() && mode.ReadBulk? && bulkLen >= 0
      modifies this`responseLen, this`reply, this`mode
      ensures Valid()
      ensures View() == OnBulkReceived(old(View()))
    {
      hide Grown, FramesOf;
      responseLen := responseLen + bulkLen + 2;
      if bulkLen > 0 {
        reply := reply.(hits := reply.hits + 1);
      }
      mode := EndBulk;
    }

    /** The rs_read_line case. */
    method TurnLine() returns (done: bool, code: int)
      requires Valid() && mode.ReadLine?
      modifies this, nodes
      ensures Valid() && fresh(nodes - old(nodes))
      ensures Step(old(View()), old(readBuf)) == Outcome(if done then Done(code, View()) else More(View()), readBuf)
    {
      hide Grown, FramesOf, Consistent, OnLine;
      done, code := false, 0;
      var i := FindCrlf(readBuf);
      if i < 0 {
        done := true;
      } else {
        var line := readBuf[..i];
        readBuf := readBuf[i + 2..];
        done, code := HandleLine(line);
      }
    }

    /** The rs_end_bulk case. */
    method TurnEnd() returns (done: bool)
      requires Valid() && mode.EndBulk? && Ready(View(), readBuf)
      modifies this, nodes
      ensures Valid() && nodes == old(nodes)
      ensures Step(old(View()), old(readBuf)) == Outcome(if done then Done(1, View()) else More(View()), readBuf)
    {
      hide Grown, FramesOf, Consistent, OnBulkEnd;
      var data: Bytes := [];
      if bulkLen >= 0 {
        data := readBuf[..bulkLen];
      }
      if keepValue {
        BulkEndFollows(View(), data);
      }
      if bulkLen >= 0 {
        readBuf := readBuf[bulkLen + 2..];
      }
      done := HandleBulkEnd(data);
    }

    /** One turn of the loop of parse_response. */
    method Turn() returns (done: bool, code: int)
      requires Valid() && Ready(View(), readBuf) && (mode.Initial? ==> chain == [])
      modifies this, nodes
      ensures Valid() && fresh(nodes - old(nodes))
      ensures !done ==> !mode.Initial?
      ensures Step(old(View()), old(readBuf)) == Outcome(if done then Done(code, View()) else More(View()), readBuf)
    {
      hide Grown, FramesOf, Consistent, OnLine, OnBulkEnd, OnBulkReceived;
      if Step(View(), readBuf).turn.More? {
        MoreIsInside(View(), readBuf);
      }
      done, code := false, 0;
      match mode
      case Initial =>
        Clear();
      case ReadLine =>
        done, code := TurnLine();
      case ReadBulk =>
        if |readBuf| >= bulkLen + 2 {
          HandleBulkReceived();
        } else {
          done := true;
        }
      case EndBulk =>
        done := TurnEnd();
        code := 1;
    }

    /** parse_response.  A reply that completes leaves its whole tree behind exactly when no header of the call
        overflows the counter; a completed reply with arrays still open must not be followed by another call, because
        the current element is then freed with the response. */
    method ParseResponse() returns (code: int)
      requires Valid() && AtRest(View()) && (mode.Initial? ==> chain == [])
      modifies this, nodes
      ensures Valid() && fresh(nodes - old(nodes))
      ensures Parse(old(View()), old(readBuf)) == Result(code, View(), readBuf)
      ensures code == 1 && keepValue && old(Agrees(View())) ==>
                (chain == [] <==> !old(CallOverflows(View(), readBuf)))
      ensures code == 1 && keepValue && mbulkValue != null && chain == [] ==>
                Represents(mbulkValue, Branch(mbulkValue.trees), nodes)
    {
      hide Grown, FramesOf, Consistent, Agrees, Step, CallOverflows;
      code := 0;
      var done := false;
      while !done
        invariant Valid() && Ready(View(), readBuf) && fresh(nodes - old(nodes))
        invariant !done ==> (mode.Initial? ==> chain == [])
        invariant !done ==> Parse(old(View()), old(readBuf)) == Parse(View(), readBuf)
        invariant done ==> Parse(old(View()), old(readBuf)) == Result(code, View(), readBuf)
        decreases !done, |readBuf|, Rank(mode)
      {
        StepProgress(View(), readBuf);
        done, code := Turn();
      }
      ParseAccounts(old(View()), old(readBuf));
      if code == 1 && keepValue && old(Agrees(View())) {
        ParseAgrees(old(View()), old(readBuf));
        assert |View().frames| == |chain|;
      }
      if code == 1 && keepValue && mbulkValue != null && chain == [] {
        RootRepresents(mbulkValue, closed, nodes);
      }
    }
  }
}
