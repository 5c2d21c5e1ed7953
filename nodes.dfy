// The composite node model: a directory holding an ordered list of children,
// and three leaf kinds (Word, image and plain-text files) that carry a size
// in KB. Every node has an id and a tag set.
//
// Nodes are values here. The source compares nodes by reference; since every
// node gets a distinct id from a global counter, reference equality is
// modelled by id equality.

module Nodes {
  import opened Common
  import opened Strings
  import opened Tags
  import opened SizeFormat

  type NodeId = nat

  /** A `Date`, kept opaque: the model only stores and copies it. */
  datatype Date = Date(epochMillis: int)

  datatype Node =
    | Dir(id: NodeId, name: string, tags: TagSet, children: seq<Node>)
    | Word(id: NodeId, name: string, tags: TagSet, sizeKB: real, createdAt: Date, pages: int)
    | Image(id: NodeId, name: string, tags: TagSet, sizeKB: real, createdAt: Date, width: int, height: int)
    | Text(id: NodeId, name: string, tags: TagSet, sizeKB: real, createdAt: Date, encoding: string)

  // ---------------------------------------------------------------------------
  // Per-node queries

  /** `getTagsArray`: the tags in insertion order, each once. */
  function TagsArray(n: Node): (r: seq<TagType>)
    ensures NoDups(r)
    ensures forall t :: t in r <==> t in n.tags
  {
    n.tags
  }

  /** `getSizeKB`: a leaf's own size; a directory's is the sum over its children. */
  function SizeKB(n: Node): real {
    match n
    case Dir(_, _, _, children) => SumSizes(children)
    case Word(_, _, _, sizeKB, _, _) => sizeKB
    case Image(_, _, _, sizeKB, _, _, _) => sizeKB
    case Text(_, _, _, sizeKB, _, _) => sizeKB
  }

  /** The `reduce` over a directory's children, starting from 0. */
  function SumSizes(cs: seq<Node>): real {
    if cs == [] then 0.0 else SizeKB(cs[0]) + SumSizes(cs[1..])
  }

  /** `getFormattedSize` */
  function FormattedSize(n: Node): string {
    FormatSize(SizeKB(n))
  }

  function Icon(n: Node): string {
    match n
    case Dir(_, _, _, _) => "📂"
    case Word(_, _, _, _, _, _) => "📄"
    case Image(_, _, _, _, _, _, _) => "🖼️"
    case Text(_, _, _, _, _, _) => "📝"
  }

  function TypeLabel(n: Node): string {
    match n
    case Dir(_, _, _, _) => "[目錄]"
    case Word(_, _, _, _, _, _) => "[Word 檔案]"
    case Image(_, _, _, _, _, _, _) => "[圖片]"
    case Text(_, _, _, _, _, _) => "[純文字檔]"
  }

  /**
   * `getDetails`. The Word file formats its size; the image and text files
   * print the raw KB number.
   */
  function Details(n: Node): string {
    match n
    case Dir(_, _, _, _) => ""
    case Word(_, _, _, sizeKB, _, pages) =>
      "(頁數: " + IntText(pages) + ", 大小: " + FormatSize(sizeKB) + ")"
    case Image(_, _, _, sizeKB, _, width, height) =>
      "(解析度: " + IntText(width) + "x" + IntText(height) + ", 大小: " + NumberText(sizeKB) + "KB)"
    case Text(_, _, _, sizeKB, _, encoding) =>
      "(編碼: " + encoding + ", 大小: " + NumberText(sizeKB) + "KB)"
  }

  /** The pre-order list of leaves: an independent account of what a size sums. */
  function Leaves(n: Node): seq<Node> {
    if n.Dir? then LeavesOf(n.children) else [n]
  }

  function LeavesOf(cs: seq<Node>): seq<Node> {
    if cs == [] then [] else Leaves(cs[0]) + LeavesOf(cs[1..])
  }

  function LeafTotal(ls: seq<Node>): real {
    if ls == [] then 0.0 else SizeKB(ls[0]) + LeafTotal(ls[1..])
  }

  lemma {:induction false} LeafTotalAppend(a: seq<Node>, b: seq<Node>)
    ensures LeafTotal(a + b) == LeafTotal(a) + LeafTotal(b)
  {
    if a == [] {
      assert a + b == b;
    } else {
      assert (a + b)[1..] == a[1..] + b;
      LeafTotalAppend(a[1..], b);
    }
  }

  lemma {:induction false} SumSizesAppend(a: seq<Node>, b: seq<Node>)
    ensures SumSizes(a + b) == SumSizes(a) + SumSizes(b)
  {
    if a == [] {
      assert a + b == b;
    } else {
      assert (a + b)[1..] == a[1..] + b;
      SumSizesAppend(a[1..], b);
    }
  }

  /** A directory's size is the total of the leaves below it, whatever the nesting. */
  lemma {:induction false} SizeIsLeafTotal(n: Node)
    ensures SizeKB(n) == LeafTotal(Leaves(n))
    ensures forall l :: l in Leaves(n) ==> !l.Dir?
  {
    if n.Dir? {
      SizeIsLeafTotalOf(n.children);
    }
  }

  lemma {:induction false} SizeIsLeafTotalOf(cs: seq<Node>)
    ensures SumSizes(cs) == LeafTotal(LeavesOf(cs))
    ensures forall l :: l in LeavesOf(cs) ==> !l.Dir?
  {
    if cs != [] {
      SizeIsLeafTotal(cs[0]);
      SizeIsLeafTotalOf(cs[1..]);
      LeafTotalAppend(Leaves(cs[0]), LeavesOf(cs[1..]));
    }
  }

  // ---------------------------------------------------------------------------
  // Directory.add / remove / insertAt on the children list

  /** `children.indexOf(node)`: the first child with the node's id, or -1. */
  function IndexOf(cs: seq<Node>, id: NodeId): (k: int)
    ensures -1 <= k < |cs|
    ensures k == -1 <==> forall i :: 0 <= i < |cs| ==> cs[i].id != id
    ensures k != -1 ==> cs[k].id == id && forall i :: 0 <= i < k ==> cs[i].id != id
  {
    if cs == [] then -1
    else if cs[0].id == id then 0
    else
      var k := IndexOf(cs[1..], id);
      assert forall i :: 1 <= i < |cs| ==> cs[i] == cs[1..][i - 1];
      if k == -1 then -1 else k + 1
  }

  /** `add`: the node is pushed after the existing children. */
  function Add(cs: seq<Node>, x: Node): (r: seq<Node>)
    ensures |r| == |cs| + 1 && r[..|cs|] == cs && r[|cs|] == x
  {
    cs + [x]
  }

  /**
   * `remove`: the index of the first child with the node's id, and the
   * children without exactly that one; -1 and the list unchanged when absent.
   */
  function Remove(cs: seq<Node>, id: NodeId): (r: (seq<Node>, int))
    ensures r.1 == IndexOf(cs, id)
    ensures r.1 == -1 ==> r.0 == cs
    ensures r.1 != -1 ==> r.0 == cs[..r.1] + cs[r.1 + 1..]
  {
    var k := IndexOf(cs, id);
    if k == -1 then (cs, -1) else (cs[..k] + cs[k + 1..], k)
  }

  /** Where `splice(index, 0, x)` inserts: negative indices count from the end; out-of-range ones are clamped. */
  function SpliceStart(index: int, len: nat): (p: nat)
    ensures p <= len
    ensures 0 <= index <= len ==> p == index
  {
    if index < 0 then (if len + index < 0 then 0 else len + index)
    else if index > len then len
    else index
  }

  /** `insertAt`: the node is spliced in before position `SpliceStart(index)`. */
  function InsertAt(cs: seq<Node>, x: Node, index: int): (r: seq<Node>)
    ensures 0 <= index <= |cs| ==> r == cs[..index] + [x] + cs[index..]
    ensures |r| == |cs| + 1
  {
    var p := SpliceStart(index, |cs|);
    cs[..p] + [x] + cs[p..]
  }

  /** Removing a child and inserting it back at the index `remove` returned restores the exact list. */
  lemma RemoveThenInsert(cs: seq<Node>, id: NodeId)
    requires IndexOf(cs, id) != -1
    ensures InsertAt(Remove(cs, id).0, cs[IndexOf(cs, id)], IndexOf(cs, id)) == cs
  {
    var k := IndexOf(cs, id);
    SpliceBack(cs, k);
  }

  /** Appending a node and removing it by id gives the original list back, when the id was not present. */
  lemma AddThenRemove(cs: seq<Node>, x: Node)
    requires forall i :: 0 <= i < |cs| ==> cs[i].id != x.id
    ensures Remove(Add(cs, x), x.id) == (cs, |cs|)
  {
    var r := Add(cs, x);
    assert r[|cs|].id == x.id;
    assert forall i :: 0 <= i < |cs| ==> r[i] == cs[i];
    assert r[..|cs|] + r[|cs| + 1..] == cs;
  }

  /** Adding a child grows the directory's size by the child's size; removing one shrinks it by that child's size. */
  lemma {:induction false} SizeAfterAddRemove(cs: seq<Node>, x: Node, id: NodeId)
    ensures SumSizes(Add(cs, x)) == SumSizes(cs) + SizeKB(x)
    ensures IndexOf(cs, id) != -1 ==>
      SumSizes(Remove(cs, id).0) == SumSizes(cs) - SizeKB(cs[IndexOf(cs, id)])
  {
    SumSizesAppend(cs, [x]);
    assert SumSizes([x]) == SizeKB(x) + SumSizes([]);
    var k := IndexOf(cs, id);
    if k != -1 {
      assert cs == cs[..k] + ([cs[k]] + cs[k + 1..]);
      SumSizesAppend(cs[..k], [cs[k]] + cs[k + 1..]);
      SumSizesAppend([cs[k]], cs[k + 1..]);
      SumSizesAppend(cs[..k], cs[k + 1..]);
      assert SumSizes([cs[k]]) == SizeKB(cs[k]) + SumSizes([]);
    }
  }
}
