/** RESP values and their wire form: the sections "Simple strings", "Simple errors", "Integers",
    "Bulk strings" and "Arrays" of the Redis serialization protocol specification. */
module RespValue {
  import opened ByteStrings
  import opened RespParser

  datatype Value =
    | Simple(kind: byte, text: Bytes)   // '+', '-' or ':'
    | Bulk(data: Bytes)
    | NullBulk
    | Array(items: seq<Value>)
    | NullArray

  /** A simple value sits on one line; everything else is unrestricted. */
  ghost predicate Valid(v: Value) {
    match v
    case Simple(kind, text) => kind in {PLUS, MINUS, COLON} && NoCrlf([kind] + text)
    case Array(items) => AllValid(items)
    case _ => true
  }

  ghost predicate AllValid(vs: seq<Value>) {
    forall i :: 0 <= i < |vs| ==> Valid(vs[i])
  }

  /** The first line of a value, without its CRLF. */
  function Header(v: Value): (h: Bytes)
    ensures h != []
  {
    match v
    case Simple(kind, text) => [kind] + text
    case Bulk(data) => [DOLLAR] + Dec(|data|)
    case NullBulk => [DOLLAR, MINUS, 49]
    case Array(items) => [STAR] + Dec(|items|)
    case NullArray => [STAR, MINUS, 49]
  }

  function Encode(v: Value): (s: Bytes)
    ensures |s| >= 3
    decreases v, 1
  {
    Header(v) + CRLF +
    match v
    case Bulk(data) => data + CRLF
    case Array(items) => EncodeAll(items)
    case _ => []
  }

  function EncodeAll(vs: seq<Value>): (s: Bytes)
    ensures |s| >= 3 * |vs|
    decreases vs, 0
  {
    if vs == [] then [] else Encode(vs[0]) + EncodeAll(vs[1..])
  }

  /** The numbers in the headers fit the types the parser reads them into. */
  ghost predicate Fits(v: Value) {
    match v
    case Bulk(data) => |data| + 2 < TWO_63
    case Array(items) => |items| < TWO_31 && AllFit(items)
    case _ => true
  }

  ghost predicate AllFit(vs: seq<Value>) {
    forall i :: 0 <= i < |vs| ==> Fits(vs[i])
  }

  /** The most elements outstanding at any time while a value arrives. */
  function Peak(v: Value): nat
    decreases v, 1
  {
    match v
    case Array(items) => if PeakAll(items) > |items| then PeakAll(items) else |items|
    case _ => 0
  }

  function PeakAll(vs: seq<Value>): nat
    decreases vs, 0
  {
    if vs == [] then 0
    else if |vs| - 1 + Peak(vs[0]) > PeakAll(vs[1..]) then |vs| - 1 + Peak(vs[0])
    else PeakAll(vs[1..])
  }

  /** The parser can take the value up: no header is beyond its type, and the element counter does not wrap. */
  ghost predicate Receivable(v: Value) {
    Fits(v) && Peak(v) < TWO_32
  }

  /** Everything shorter than 2^32 bytes can be taken up. */
  lemma {:induction false} ShortReceivable(v: Value)
    requires |Encode(v)| < TWO_32
    ensures Receivable(v)
    decreases v, 1
  {
    ShortFits(v);
  }

  lemma {:induction false} ShortFits(v: Value)
    requires |Encode(v)| < TWO_32
    ensures Fits(v) && Peak(v) <= |Encode(v)|
    decreases v, 1
  {
    if v.Array? {
      ShortAllFit(v.items);
    }
  }

  lemma {:induction false} ShortAllFit(vs: seq<Value>)
    requires |EncodeAll(vs)| < TWO_32
    ensures AllFit(vs) && PeakAll(vs) <= |EncodeAll(vs)|
    decreases vs, 0
  {
    if vs != [] {
      hide Encode, Fits, Peak;
      ShortFits(vs[0]);
      ShortAllFit(vs[1..]);
      assert |EncodeAll(vs)| == |Encode(vs[0])| + |EncodeAll(vs[1..])|;
      forall i | 0 <= i < |vs| ensures Fits(vs[i]) {
        if i > 0 {
          assert vs[i] == vs[1..][i - 1];
        }
      }
    }
  }

  /** What keep-value should build; a missing value is the same as an empty one. */
  function TreeOf(v: Value): Tree
    decreases v, 1
  {
    match v
    case Simple(kind, text) => Leaf(CString([kind] + text))
    case Bulk(data) => Leaf(data)
    case NullBulk => Leaf([])
    case Array(items) => Branch(TreesOf(items))
    case NullArray => Branch([])
  }

  function TreesOf(vs: seq<Value>): (ts: seq<Tree>)
    ensures |ts| == |vs|
    decreases vs, 0
  {
    if vs == [] then [] else [TreeOf(vs[0])] + TreesOf(vs[1..])
  }

  /** The line the status of a reply is taken from: the last header line on the wire. */
  function LastHeader(v: Value): (h: Bytes)
    ensures h != []
    decreases v
  {
    match v
    case Array(items) => if items == [] then Header(v) else LastHeader(items[|items| - 1])
    case _ => Header(v)
  }

  /** Number of non-empty bulk strings anywhere in a value. */
  function Hits(v: Value): nat
    decreases v, 1
  {
    match v
    case Bulk(data) => if data == [] then 0 else 1
    case Array(items) => HitsAll(items)
    case _ => 0
  }

  function HitsAll(vs: seq<Value>): nat
    decreases vs, 0
  {
    if vs == [] then 0 else Hits(vs[0]) + HitsAll(vs[1..])
  }

  /** Is there an error anywhere in a value? */
  predicate HasError(v: Value)
    decreases v, 1
  {
    match v
    case Simple(kind, _) => kind == MINUS
    case Array(items) => AnyError(items)
    case _ => false
  }

  predicate AnyError(vs: seq<Value>)
    decreases vs, 0
  {
    vs != [] && (HasError(vs[0]) || AnyError(vs[1..]))
  }
}
