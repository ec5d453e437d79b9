/** How handle_cluster_slots reads the kept reply tree. */
module ClusterReply {
  import opened ByteStrings
  import opened ClusterSlots
  import opened RespNested
  import opened RespParser
  import opened RespValue

  /** One shard as the reader sees it: an array of two slot numbers and an array of address and port.  The
      first character of a line (the ':' of an integer) is skipped. */
  function ReadShard(t: Tree, attempt: Attempt): Option<Shard> {
    if t.Branch? && |t.items| >= 3 && t.items[0].Leaf? && t.items[1].Leaf? && t.items[2].Branch? then
      var node := t.items[2].items;
      if |t.items[0].text| > 0 && |t.items[1].text| > 0 && |node| >= 2 && node[0].Leaf? && node[1].Leaf?
         && |node[1].text| > 0 then
        Some(Shard(ToInt32(Strtol(t.items[0].text[1..])), ToInt32(Strtol(t.items[1].text[1..])),
                   CString(node[0].text), CString(node[1].text[1..]), attempt))
      else None
    else None
  }

  function ReadShards(ts: seq<Tree>, attempts: seq<Attempt>): Option<seq<Shard>>
    requires |attempts| == |ts|
    decreases |ts|
  {
    if ts == [] then Some([])
    else
      match ReadShard(ts[0], attempts[0])
      case None => None
      case Some(e) =>
        match ReadShards(ts[1..], attempts[1..])
        case None => None
        case Some(es) => Some([e] + es)
  }

  /** A shard as the server describes it; the master may carry further fields, and replicas may follow. */
  datatype Entry = Entry(shard: Shard, more: seq<Value>, replicas: seq<Value>)

  ghost predicate ValidEntry(e: Entry) {
    && 0 <= e.shard.minSlot < TWO_31 && 0 <= e.shard.maxSlot < TWO_31
    && NUL !in e.shard.address && NUL !in e.shard.port && NoCrlf([COLON] + e.shard.port)
    && AllValid(e.more) && AllValid(e.replicas)
  }

  function EntryValue(e: Entry): Value {
    Array([Simple(COLON, DecInt(e.shard.minSlot)), Simple(COLON, DecInt(e.shard.maxSlot)),
           Array([Bulk(e.shard.address), Simple(COLON, e.shard.port)] + e.more)] + e.replicas)
  }

  function ReplyValue(es: seq<Entry>): (v: Value)
    ensures v.Array? && |v.items| == |es|
    ensures forall k :: 0 <= k < |es| ==> v.items[k] == EntryValue(es[k])
  {
    Array(seq(|es|, k requires 0 <= k < |es| => EntryValue(es[k])))
  }

  lemma SlotNumberLeaf(n: nat)
    requires n < TWO_31
    ensures var text := CString([COLON] + Dec(n)); |text| > 0 && ToInt32(Strtol(text[1..])) == n
  {
    var line := [COLON] + Dec(n);
    assert NUL !in line by {
      forall i | 0 <= i < |line| ensures line[i] != NUL {
        assert i > 0 ==> IsDigit(Dec(n)[i - 1]) && line[i] == Dec(n)[i - 1];
      }
    }
    CStringWhole(line);
    assert line[1..] == Dec(n);
    StrtolDec(n);
  }

  lemma {:induction false} TreesOfAt(vs: seq<Value>, i: nat)
    requires i < |vs|
    ensures TreesOf(vs)[i] == TreeOf(vs[i])
    decreases |vs|
  {
    if i > 0 {
      TreesOfAt(vs[1..], i - 1);
    }
  }

  lemma EntryReadsBack(e: Entry)
    requires ValidEntry(e)
    ensures ReadShard(TreeOf(EntryValue(e)), e.shard.attempt) == Some(e.shard)
  {
    var node := [Bulk(e.shard.address), Simple(COLON, e.shard.port)] + e.more;
    var v := EntryValue(e);
    hide TreesOf, Strtol, Dec;
    TreesOfAt(v.items, 0);
    TreesOfAt(v.items, 1);
    TreesOfAt(v.items, 2);
    TreesOfAt(node, 0);
    TreesOfAt(node, 1);
    SlotNumberLeaf(e.shard.minSlot);
    SlotNumberLeaf(e.shard.maxSlot);
    CStringWhole(e.shard.address);
    CStringWhole([COLON] + e.shard.port);
    CStringWhole(e.shard.port);
    assert ([COLON] + e.shard.port)[1..] == e.shard.port;
  }

  function Shards(es: seq<Entry>): (r: seq<Shard>)
    ensures |r| == |es| && forall k :: 0 <= k < |es| ==> r[k] == es[k].shard
  {
    seq(|es|, k requires 0 <= k < |es| => es[k].shard)
  }

  function Attempts(es: seq<Entry>): (r: seq<Attempt>)
    ensures |r| == |es| && forall k :: 0 <= k < |es| ==> r[k] == es[k].shard.attempt
  {
    seq(|es|, k requires 0 <= k < |es| => es[k].shard.attempt)
  }

  lemma {:induction false} EntriesReadBack(es: seq<Entry>)
    requires forall k :: 0 <= k < |es| ==> ValidEntry(es[k])
    ensures ReadShards(TreesOf(ReplyValue(es).items), Attempts(es)) == Some(Shards(es))
    decreases |es|
  {
    hide ReadShard, EntryValue;
    if es != [] {
      EntryReadsBack(es[0]);
      EntriesReadBack(es[1..]);
      var items := ReplyValue(es).items;
      assert items[1..] == ReplyValue(es[1..]).items;
      assert TreesOf(items)[1..] == TreesOf(items[1..]);
      assert Attempts(es)[1..] == Attempts(es[1..]);
      assert Shards(es) == [es[0].shard] + Shards(es[1..]);
    } else {
      assert Shards(es) == [];
    }
  }

  lemma EntryValueValid(e: Entry)
    requires ValidEntry(e)
    ensures Valid(EntryValue(e))
  {
    var node := [Bulk(e.shard.address), Simple(COLON, e.shard.port)] + e.more;
    assert forall i :: 0 <= i < |node| ==> Valid(node[i]);
    DecNoCrlf(e.shard.minSlot, COLON);
    DecNoCrlf(e.shard.maxSlot, COLON);
    var v := EntryValue(e);
    forall i | 0 <= i < |v.items| ensures Valid(v.items[i]) {
      assert i >= 3 ==> v.items[i] == e.replicas[i - 3];
    }
  }

  /** From the wire to the topology: any CLUSTER SLOTS reply, parsed with keep-value on and read by
      handle_cluster_slots, is the list of shards the server meant. */
  lemma SlotsReplyReadsBack(p: Parser, es: seq<Entry>, rest: Bytes)
    requires p.mode.Initial? && p.frames == [] && p.keep
    requires forall k :: 0 <= k < |es| ==> ValidEntry(es[k])
    requires Receivable(ReplyValue(es))
    ensures var r := Parse(p, Encode(ReplyValue(es)) + rest);
            && r.code == 1 && r.buf == rest && r.p.reply.tree.Some? && r.p.reply.tree.value.Branch?
            && var ts := r.p.reply.tree.value.items;
               |ts| == |es| && ReadShards(ts, Attempts(es)) == Some(Shards(es))
  {
    hide ReadShards, Receivable;
    var v := ReplyValue(es);
    forall k | 0 <= k < |es| ensures Valid(v.items[k]) {
      EntryValueValid(es[k]);
    }
    ParseInvertsEncode(p, v, rest);
    EntriesReadBack(es);
  }
}
