// The document tree as a whole. The source mutates directories and nodes
// in place through references held by commands and services; here the tree
// is one value held by a `Tree` object, and an in-place update of the node
// with a given id replaces that node inside the tree. Ids are unique in every
// tree the program builds (they come from one counter), which is what makes
// "the node with this id" the same thing as "this object".

module DocumentTree {
  import opened Common
  import opened Tags
  import opened Nodes

  // ---------------------------------------------------------------------------
  // Ids, uniqueness, containment

  /** Every id in the subtree of `n`, `n` included. */
  function Ids(n: Node): set<NodeId> {
    {n.id} + (if n.Dir? then IdsOf(n.children) else {})
  }

  function IdsOf(cs: seq<Node>): set<NodeId> {
    if cs == [] then {} else Ids(cs[0]) + IdsOf(cs[1..])
  }

  /** No id occurs twice in the subtree. */
  predicate UniqueIds(n: Node) {
    n.Dir? ==> n.id !in IdsOf(n.children) && UniqueSeq(n.children)
  }

  predicate UniqueSeq(cs: seq<Node>) {
    cs != [] ==> UniqueIds(cs[0]) && Ids(cs[0]) !! IdsOf(cs[1..]) && UniqueSeq(cs[1..])
  }

  /** Every id in the subtree is below `bound`. */
  predicate IdsBelow(n: Node, bound: nat) {
    forall id :: id in Ids(n) ==> id < bound
  }

  /** `x` is `n` or a node somewhere below it. */
  predicate Contains(n: Node, x: Node) {
    n == x || (n.Dir? && ContainsIn(n.children, x))
  }

  predicate ContainsIn(cs: seq<Node>, x: Node) {
    cs != [] && (Contains(cs[0], x) || ContainsIn(cs[1..], x))
  }

  lemma {:induction false} ContainsId(n: Node, x: Node)
    requires Contains(n, x)
    ensures x.id in Ids(n)
  {
    if n != x {
      ContainsInId(n.children, x);
    }
  }

  lemma {:induction false} ContainsInId(cs: seq<Node>, x: Node)
    requires ContainsIn(cs, x)
    ensures x.id in IdsOf(cs)
  {
    if Contains(cs[0], x) {
      ContainsId(cs[0], x);
    } else {
      ContainsInId(cs[1..], x);
    }
  }

  lemma {:induction false} ContainsTransitive(n: Node, d: Node, x: Node)
    requires Contains(n, d) && Contains(d, x)
    ensures Contains(n, x)
  {
    if n != d {
      ContainsInTransitive(n.children, d, x);
    }
  }

  lemma {:induction false} ContainsInTransitive(cs: seq<Node>, d: Node, x: Node)
    requires ContainsIn(cs, d) && Contains(d, x)
    ensures ContainsIn(cs, x)
  {
    if Contains(cs[0], d) {
      ContainsTransitive(cs[0], d, x);
    } else {
      ContainsInTransitive(cs[1..], d, x);
    }
  }

  /** A child is contained in its parent. */
  lemma {:induction false} ChildContained(cs: seq<Node>, x: Node)
    requires x in cs
    ensures ContainsIn(cs, x)
  {
    if cs[0] != x {
      assert x in cs[1..];
      ChildContained(cs[1..], x);
    }
  }

  /** Appending a subtree whose ids are new to a sibling list keeps the ids unique. */
  lemma {:induction false} UniqueSeqAppend(cs: seq<Node>, x: Node)
    requires UniqueSeq(cs) && UniqueIds(x) && IdsOf(cs) !! Ids(x)
    ensures UniqueSeq(cs + [x])
    ensures IdsOf(cs + [x]) == IdsOf(cs) + Ids(x)
  {
    if cs == [] {
      assert [] + [x] == [x];
      assert IdsOf([x]) == Ids(x) + IdsOf([]);
    } else {
      assert (cs + [x])[0] == cs[0];
      assert (cs + [x])[1..] == cs[1..] + [x];
      UniqueSeqAppend(cs[1..], x);
    }
  }

  // ---------------------------------------------------------------------------
  // Lookup by id

  /** The first node in pre-order with the given id. */
  function Find(n: Node, id: NodeId): Option<Node> {
    if n.id == id then Some(n)
    else if n.Dir? then FindIn(n.children, id)
    else None
  }

  function FindIn(cs: seq<Node>, id: NodeId): Option<Node> {
    if cs == [] then None
    else
      var r := Find(cs[0], id);
      if r.Some? then r else FindIn(cs[1..], id)
  }

  /** A node is found exactly when its id occurs, and what is found carries the id and lies in the tree. */
  lemma {:induction false} FindSpec(n: Node, id: NodeId)
    ensures Find(n, id).None? <==> id !in Ids(n)
    ensures Find(n, id).Some? ==> Find(n, id).value.id == id && Contains(n, Find(n, id).value)
  {
    if n.id != id && n.Dir? {
      FindInSpec(n.children, id);
    }
  }

  lemma {:induction false} FindInSpec(cs: seq<Node>, id: NodeId)
    ensures FindIn(cs, id).None? <==> id !in IdsOf(cs)
    ensures FindIn(cs, id).Some? ==> FindIn(cs, id).value.id == id && ContainsIn(cs, FindIn(cs, id).value)
  {
    if cs != [] {
      FindSpec(cs[0], id);
      FindInSpec(cs[1..], id);
    }
  }

  /** In a tree with unique ids, looking up the id of any node in it finds that very node. */
  lemma {:induction false} FindUnique(n: Node, x: Node)
    requires UniqueIds(n) && Contains(n, x)
    ensures Find(n, x.id) == Some(x)
  {
    if n != x {
      ContainsInId(n.children, x);
      FindInUnique(n.children, x);
    }
  }

  lemma {:induction false} FindInUnique(cs: seq<Node>, x: Node)
    requires UniqueSeq(cs) && ContainsIn(cs, x)
    ensures FindIn(cs, x.id) == Some(x)
  {
    if Contains(cs[0], x) {
      FindUnique(cs[0], x);
    } else {
      ContainsInId(cs[1..], x);
      FindSpec(cs[0], x.id);
      FindInUnique(cs[1..], x);
    }
  }

  // ---------------------------------------------------------------------------
  // In-place update of one node, as a replacement inside the tree value

  /** The tree with the node(s) carrying `id` replaced by `x`. */
  function ReplaceNode(n: Node, id: NodeId, x: Node): Node {
    if n.id == id then x
    else if n.Dir? then n.(children := ReplaceIn(n.children, id, x))
    else n
  }

  function ReplaceIn(cs: seq<Node>, id: NodeId, x: Node): (r: seq<Node>)
    ensures |r| == |cs|
  {
    if cs == [] then [] else [ReplaceNode(cs[0], id, x)] + ReplaceIn(cs[1..], id, x)
  }

  /** Replacing an id that does not occur changes nothing. */
  lemma {:induction false} ReplaceAbsent(n: Node, id: NodeId, x: Node)
    requires id !in Ids(n)
    ensures ReplaceNode(n, id, x) == n
  {
    if n.Dir? {
      ReplaceInAbsent(n.children, id, x);
    }
  }

  lemma {:induction false} ReplaceInAbsent(cs: seq<Node>, id: NodeId, x: Node)
    requires id !in IdsOf(cs)
    ensures ReplaceIn(cs, id, x) == cs
  {
    if cs != [] {
      ReplaceAbsent(cs[0], id, x);
      ReplaceInAbsent(cs[1..], id, x);
    }
  }

  /** With unique ids, replacing a node by itself changes nothing. */
  lemma {:induction false} ReplaceBySelf(n: Node, id: NodeId)
    requires UniqueIds(n) && Find(n, id).Some?
    ensures ReplaceNode(n, id, Find(n, id).value) == n
  {
    if n.id != id {
      ReplaceInBySelf(n.children, id);
    }
  }

  lemma {:induction false} ReplaceInBySelf(cs: seq<Node>, id: NodeId)
    requires UniqueSeq(cs) && FindIn(cs, id).Some?
    ensures ReplaceIn(cs, id, FindIn(cs, id).value) == cs
  {
    var x := FindIn(cs, id).value;
    if Find(cs[0], id).Some? {
      ReplaceBySelf(cs[0], id);
      FindSpec(cs[0], id);
      ReplaceInAbsent(cs[1..], id, x);
    } else {
      FindSpec(cs[0], id);
      ReplaceAbsent(cs[0], id, x);
      ReplaceInBySelf(cs[1..], id);
    }
  }

  /** A second replacement of the same id overrides the first. */
  lemma {:induction false} ReplaceTwice(n: Node, id: NodeId, x: Node, y: Node)
    requires x.id == id
    ensures ReplaceNode(ReplaceNode(n, id, x), id, y) == ReplaceNode(n, id, y)
  {
    if n.id != id && n.Dir? {
      ReplaceInTwice(n.children, id, x, y);
    }
  }

  lemma {:induction false} ReplaceInTwice(cs: seq<Node>, id: NodeId, x: Node, y: Node)
    requires x.id == id
    ensures ReplaceIn(ReplaceIn(cs, id, x), id, y) == ReplaceIn(cs, id, y)
  {
    if cs != [] {
      ReplaceTwice(cs[0], id, x, y);
      ReplaceInTwice(cs[1..], id, x, y);
    }
  }

  /** After a replacement, looking the id up finds the new node. */
  lemma {:induction false} FindAfterReplace(n: Node, id: NodeId, x: Node)
    requires x.id == id && Find(n, id).Some?
    ensures Find(ReplaceNode(n, id, x), id) == Some(x)
  {
    if n.id != id {
      FindInAfterReplace(n.children, id, x);
    }
  }

  lemma {:induction false} FindInAfterReplace(cs: seq<Node>, id: NodeId, x: Node)
    requires x.id == id && FindIn(cs, id).Some?
    ensures FindIn(ReplaceIn(cs, id, x), id) == Some(x)
  {
    assert ReplaceIn(cs, id, x)[1..] == ReplaceIn(cs[1..], id, x);
    if Find(cs[0], id).Some? {
      FindAfterReplace(cs[0], id, x);
    } else {
      FindSpec(cs[0], id);
      ReplaceAbsent(cs[0], id, x);
      FindInAfterReplace(cs[1..], id, x);
    }
  }

  // ---------------------------------------------------------------------------
  // The two kinds of in-place update the core performs: a directory's
  // `children` reassigned, and a node's `tags` changed.

  /** The children of the directory with this id, if the tree has one. */
  function ChildrenAt(root: Node, id: NodeId): Option<seq<Node>> {
    match Find(root, id)
    case Some(d) => if d.Dir? then Some(d.children) else None
    case None => None
  }

  /** `dir.children = kids` for the directory with this id; no change when there is none. */
  function WithChildren(root: Node, id: NodeId, kids: seq<Node>): Node {
    match Find(root, id)
    case Some(d) => if d.Dir? then ReplaceNode(root, id, d.(children := kids)) else root
    case None => root
  }

  /** The tags of the node with this id, if the tree has one. */
  function TagsAt(root: Node, id: NodeId): Option<TagSet> {
    match Find(root, id)
    case Some(x) => Some(x.tags)
    case None => None
  }

  /** `node.tags = tags` for the node with this id; no change when there is none. */
  function WithTags(root: Node, id: NodeId, tags: TagSet): Node {
    match Find(root, id)
    case Some(x) => ReplaceNode(root, id, x.(tags := tags))
    case None => root
  }

  /** Reading a directory's children back after setting them gives what was set. */
  lemma ChildrenAfterWrite(root: Node, id: NodeId, kids: seq<Node>)
    requires ChildrenAt(root, id).Some?
    ensures ChildrenAt(WithChildren(root, id, kids), id) == Some(kids)
  {
    var d := Find(root, id).value;
    FindSpec(root, id);
    FindAfterReplace(root, id, d.(children := kids));
  }

  /** Setting a directory's children twice is the same as setting them once to the second value. */
  lemma ChildrenWriteTwice(root: Node, id: NodeId, k1: seq<Node>, k2: seq<Node>)
    requires ChildrenAt(root, id).Some?
    ensures WithChildren(WithChildren(root, id, k1), id, k2) == WithChildren(root, id, k2)
  {
    var d := Find(root, id).value;
    FindSpec(root, id);
    FindAfterReplace(root, id, d.(children := k1));
    ReplaceTwice(root, id, d.(children := k1), d.(children := k2));
  }

  /** Setting a directory's children to what they already are changes nothing. */
  lemma ChildrenWriteSame(root: Node, id: NodeId)
    requires UniqueIds(root) && ChildrenAt(root, id).Some?
    ensures WithChildren(root, id, ChildrenAt(root, id).value) == root
  {
    ReplaceBySelf(root, id);
  }

  lemma TagsAfterWrite(root: Node, id: NodeId, tags: TagSet)
    requires TagsAt(root, id).Some?
    ensures TagsAt(WithTags(root, id, tags), id) == Some(tags)
  {
    var x := Find(root, id).value;
    FindSpec(root, id);
    FindAfterReplace(root, id, x.(tags := tags));
  }

  lemma TagsWriteTwice(root: Node, id: NodeId, t1: TagSet, t2: TagSet)
    requires TagsAt(root, id).Some?
    ensures WithTags(WithTags(root, id, t1), id, t2) == WithTags(root, id, t2)
  {
    var x := Find(root, id).value;
    FindSpec(root, id);
    FindAfterReplace(root, id, x.(tags := t1));
    ReplaceTwice(root, id, x.(tags := t1), x.(tags := t2));
  }

  lemma TagsWriteSame(root: Node, id: NodeId)
    requires UniqueIds(root) && TagsAt(root, id).Some?
    ensures WithTags(root, id, TagsAt(root, id).value) == root
  {
    ReplaceBySelf(root, id);
  }

  // ---------------------------------------------------------------------------
  // The mutable tree

  /**
   * The directories and files reachable from one root, updated in place by
   * `Directory.add/remove/insertAt`, by `dir.children = ...` and by
   * `node.tags.add/delete`.
   */
  class Tree {
    var root: Node

    constructor(root: Node)
      ensures this.root == root
    {
      this.root := root;
    }

    /** `dir.add(x)` */
    method AddChild(dirId: NodeId, x: Node)
      modifies this
      ensures ChildrenAt(old(root), dirId).Some? ==>
        root == WithChildren(old(root), dirId, Add(ChildrenAt(old(root), dirId).value, x))
      ensures ChildrenAt(old(root), dirId).None? ==> root == old(root)
    {
      match ChildrenAt(root, dirId)
      case Some(kids) => root := WithChildren(root, dirId, Add(kids, x));
      case None =>
    }

    /** `dir.remove(x)`: the index it had, or -1. */
    method RemoveChild(dirId: NodeId, id: NodeId) returns (index: int)
      modifies this
      ensures ChildrenAt(old(root), dirId).Some? ==>
        var r := Remove(ChildrenAt(old(root), dirId).value, id);
        index == r.1 && root == WithChildren(old(root), dirId, r.0)
      ensures ChildrenAt(old(root), dirId).None? ==> index == -1 && root == old(root)
    {
      match ChildrenAt(root, dirId)
      case Some(kids) =>
        var r := Remove(kids, id);
        root := WithChildren(root, dirId, r.0);
        index := r.1;
      case None =>
        index := -1;
    }

    /** `dir.insertAt(x, index)` */
    method InsertChild(dirId: NodeId, x: Node, index: int)
      modifies this
      ensures ChildrenAt(old(root), dirId).Some? ==>
        root == WithChildren(old(root), dirId, InsertAt(ChildrenAt(old(root), dirId).value, x, index))
      ensures ChildrenAt(old(root), dirId).None? ==> root == old(root)
    {
      match ChildrenAt(root, dirId)
      case Some(kids) => root := WithChildren(root, dirId, InsertAt(kids, x, index));
      case None =>
    }

    /** `dir.children = kids` */
    method SetChildren(dirId: NodeId, kids: seq<Node>)
      modifies this
      ensures root == WithChildren(old(root), dirId, kids)
    {
      root := WithChildren(root, dirId, kids);
    }

    /** `node.tags.add(t)` */
    method AddTag(id: NodeId, t: TagType)
      modifies this
      ensures TagsAt(old(root), id).Some? ==>
        root == WithTags(old(root), id, SetAdd(TagsAt(old(root), id).value, t))
      ensures TagsAt(old(root), id).None? ==> root == old(root)
    {
      match TagsAt(root, id)
      case Some(tags) => root := WithTags(root, id, SetAdd(tags, t));
      case None =>
    }

    /** `node.tags.delete(t)` */
    method DeleteTag(id: NodeId, t: TagType)
      modifies this
      ensures TagsAt(old(root), id).Some? ==>
        root == WithTags(old(root), id, SetDelete(TagsAt(old(root), id).value, t))
      ensures TagsAt(old(root), id).None? ==> root == old(root)
    {
      match TagsAt(root, id)
      case Some(tags) => root := WithTags(root, id, SetDelete(tags, t));
      case None =>
    }
  }
}
