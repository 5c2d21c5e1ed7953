// `RestoreSortCommand`: takes a copy of a sort command's recorded orders and
// puts them back as a command of its own. `execute` first records the order
// every key directory has at that moment, so that `undo` can re-apply it.
//
// Orders are restored as in `SortCommands`: each recorded child is taken in
// its current state from the directory when it is still there.

module RestoreSortCommands {
  import opened Common
  import opened Nodes
  import opened DocumentTree
  import opened SortStrategies
  import opened SortCommands

  /** The children a recorded directory has now; a directory no longer in the tree keeps the order it was given. */
  function CurrentOrder(root: Node, e: (NodeId, seq<Node>)): seq<Node> {
    match ChildrenAt(root, e.0)
    case Some(current) => current
    case None => e.1
  }

  /** The entries `execute` writes into `sortedOrders`: every key of `m` with its order in `root`. */
  function Recorded(root: Node, m: Entries): (r: Entries)
    ensures |r| == |m|
    ensures forall i :: 0 <= i < |m| ==> r[i].0 == m[i].0
  {
    seq(|m|, i requires 0 <= i < |m| => (m[i].0, CurrentOrder(root, m[i])))
  }

  lemma RecordStep(root: Node, m: Entries, i: nat)
    requires i < |m|
    ensures PutAll([], Recorded(root, m[..i + 1]))
         == MapPut(PutAll([], Recorded(root, m[..i])), m[i].0, CurrentOrder(root, m[i]))
  {
    assert Recorded(root, m[..i + 1])[..i] == Recorded(root, m[..i]);
  }

  // ---------------------------------------------------------------------------
  // Restoring right after a sort, then undoing the restore

  /** A recorded order once it has been sorted: its children in sorted order, each subtree sorted. */
  function SortedOrder(s: SortStrategy, kids: seq<Node>): (r: seq<Node>)
    ensures |r| == |kids|
  {
    var ks := Sort(s, kids);
    seq(|ks|, i requires 0 <= i < |ks| => SortTree(s, ks[i]))
  }

  /** Every recorded order replaced by its sorted form. */
  function Resorted(s: SortStrategy, m: Entries): (r: Entries)
    ensures |r| == |m|
    ensures forall i :: 0 <= i < |m| ==> r[i] == (m[i].0, SortedOrder(s, m[i].1))
  {
    Map(m, Resorter(s))
  }

  /** One recorded order replaced by its sorted form. */
  function Resorter(s: SortStrategy): ((NodeId, seq<Node>)) -> (NodeId, seq<Node>) {
    (e: (NodeId, seq<Node>)) => (e.0, SortedOrder(s, e.1))
  }

  /** Putting entries with distinct keys into an empty map gives exactly those entries. */
  lemma PutAllEmpty(m: Entries)
    requires DistinctKeys(m)
    ensures PutAll([], m) == m
  {
    var none: Entries := [];
    assert none + m == m;
    PutAllFresh(none, m);
  }

  lemma ResortedDistinct(s: SortStrategy, m: Entries)
    requires DistinctKeys(m)
    ensures DistinctKeys(Resorted(s, m))
  {
  }

  lemma ResortedAppend(s: SortStrategy, a: Entries, b: Entries)
    ensures Resorted(s, a + b) == Resorted(s, a) + Resorted(s, b)
  {
    MapAppend(a, b, Resorter(s));
  }

  lemma SortTreeChildren(s: SortStrategy, d: Node)
    requires d.Dir?
    ensures SortTree(s, d).children == SortedOrder(s, d.children)
  {
  }

  /** Sorting keeps every node findable by its id, now in its sorted form. */
  lemma {:induction false} FindSorted(s: SortStrategy, n: Node, k: NodeId)
    requires UniqueIds(n) && Find(n, k).Some?
    ensures Find(SortTree(s, n), k) == Some(SortTree(s, Find(n, k).value))
    decreases n
  {
    if n.id != k {
      FindInSpec(n.children, k);
      IdsOfSpec(n.children, k);
      var j :| 0 <= j < |n.children| && k in Ids(n.children[j]);
      forall i | 0 <= i < |n.children| && i != j ensures k !in Ids(n.children[i]) {
        UniqueSiblings(n.children, i, j);
      }
      FindInOnly(n.children, j, k);
      UniqueSiblings(n.children, j, j);
      FindSorted(s, n.children[j], k);
      SortSameNodes(s, n.children);
      ChildIdsDistinct(n);
      SortKeepsDistinct(s, n.children);
      var ks := Sort(s, n.children);
      var r := SortTree(s, n).children;
      assert r == SortEach(s, ks, n);
      assert n.children[j] in ks;
      var p :| 0 <= p < |ks| && ks[p] == n.children[j];
      assert r[p] == SortTree(s, ks[p]);
      forall q | 0 <= q < |r| && q != p ensures k !in Ids(r[q]) {
        assert r[q] == SortTree(s, ks[q]);
        SortTreeIds(s, ks[q]);
        assert ks[q] in n.children;
        var t :| 0 <= t < |n.children| && n.children[t] == ks[q];
        UniqueSiblings(n.children, t, j);
      }
      FindInOnly(r, p, k);
    }
  }

  lemma {:induction false} SnapEachMember(s: SortStrategy, ks: seq<Node>, parent: Node, e: (NodeId, seq<Node>))
    requires parent.Dir? && forall k :: k in ks ==> k in parent.children
    requires e in SnapEach(s, ks, parent)
    ensures exists i :: 0 <= i < |ks| && e in SortSnapshots(s, ks[i])
    decreases |ks|
  {
    var init := ks[..|ks| - 1];
    assert forall k :: k in init ==> k in ks;
    if e !in SortSnapshots(s, ks[|ks| - 1]) {
      SnapEachMember(s, init, parent, e);
      var i :| 0 <= i < |init| && e in SortSnapshots(s, init[i]);
      assert init[i] == ks[i];
    }
  }

  /** Every recorded entry names a directory of the tree, with the children it had when recorded. */
  lemma {:induction false} SnapshotFound(s: SortStrategy, n: Node, e: (NodeId, seq<Node>))
    requires UniqueIds(n) && e in SortSnapshots(s, n)
    ensures Find(n, e.0).Some? && Find(n, e.0).value.Dir? && Find(n, e.0).value.children == e.1
    decreases n
  {
    SortSameNodes(s, n.children);
    var ks := Sort(s, n.children);
    if e != (n.id, n.children) {
      assert e in SnapEach(s, ks, n);
      SnapEachMember(s, ks, n, e);
      var i :| 0 <= i < |ks| && e in SortSnapshots(s, ks[i]);
      assert ks[i] in n.children;
      var j :| 0 <= j < |n.children| && n.children[j] == ks[i];
      UniqueSiblings(n.children, j, j);
      SnapshotFound(s, n.children[j], e);
      FindSpec(n.children[j], e.0);
      IdsOfChild(n.children, j);
      forall t | 0 <= t < |n.children| && t != j ensures e.0 !in Ids(n.children[t]) {
        UniqueSiblings(n.children, t, j);
      }
      FindInOnly(n.children, j, e.0);
    }
  }

  /** What a restore command records on the sorted tree: the sorted form of each recorded order. */
  lemma RecordedSorted(s: SortStrategy, n: Node)
    requires UniqueIds(n)
    ensures Recorded(SortTree(s, n), SortSnapshots(s, n)) == Resorted(s, SortSnapshots(s, n))
  {
    var m := SortSnapshots(s, n);
    forall i | 0 <= i < |m|
      ensures CurrentOrder(SortTree(s, n), m[i]) == SortedOrder(s, m[i].1)
    {
      assert m[i] in m;
      SnapshotFound(s, n, m[i]);
      FindSorted(s, n, m[i].0);
      SortTreeChildren(s, Find(n, m[i].0).value);
    }
  }

  /** The children `ks`, the first `i` of them sorted. */
  function SortedPrefix(s: SortStrategy, ks: seq<Node>, i: nat): (r: seq<Node>)
    ensures |r| == |ks|
  {
    seq(|ks|, j requires 0 <= j < |ks| => if j < i then SortTree(s, ks[j]) else ks[j])
  }

  /** The entries recorded under the `i`-th sorted child lie under that child only. */
  lemma RedoBlockIsLocal(s: SortStrategy, n: Node, i: nat)
    requires n.Dir? && UniqueIds(n) && i < |n.children|
    ensures var ks := Sort(s, n.children);
      forall e :: e in Resorted(s, SortSnapshots(s, ks[i])) ==>
        OnlyIn(SortedPrefix(s, ks, i), i, e.0) && e.0 != n.id
  {
    SortSameNodes(s, n.children);
    ChildIdsDistinct(n);
    SortKeepsDistinct(s, n.children);
    var ks := Sort(s, n.children);
    var m := SortSnapshots(s, ks[i]);
    var cs := SortedPrefix(s, ks, i);
    SnapshotKeys(s, ks[i]);
    assert ks[i] in n.children;
    var j :| 0 <= j < |n.children| && n.children[j] == ks[i];
    IdsOfChild(n.children, j);
    forall e | e in Resorted(s, m) ensures OnlyIn(cs, i, e.0) && e.0 != n.id {
      var t :| 0 <= t < |m| && Resorted(s, m)[t] == e;
      assert m[t] in m;
      forall q | 0 <= q < |cs| && q != i ensures e.0 !in Ids(cs[q]) {
        SortTreeIds(s, ks[q]);
        assert ks[q] in n.children;
        var u :| 0 <= u < |n.children| && n.children[u] == ks[q];
        UniqueSiblings(n.children, u, j);
      }
    }
  }

  /** The entries of the first `i + 1` children are those of the first `i`, then those of child `i`. */
  lemma SnapEachPrefix(s: SortStrategy, ks: seq<Node>, i: nat, parent: Node)
    requires parent.Dir? && i < |ks| && forall k :: k in ks ==> k in parent.children
    ensures forall k :: k in ks[..i] ==> k in parent.children
    ensures forall k :: k in ks[..i + 1] ==> k in parent.children
    ensures SnapEach(s, ks[..i + 1], parent) == SnapEach(s, ks[..i], parent) + SortSnapshots(s, ks[i])
  {
    assert forall k :: k in ks[..i] ==> k in ks;
    assert forall k :: k in ks[..i + 1] ==> k in ks;
    assert ks[..i + 1][..i] == ks[..i];
  }

  lemma SortedPrefixStep(s: SortStrategy, ks: seq<Node>, i: nat)
    requires i < |ks|
    ensures SortedPrefix(s, ks, i)[i] == ks[i]
    ensures SortedPrefix(s, ks, i)[i := SortTree(s, ks[i])] == SortedPrefix(s, ks, i + 1)
  {
  }

  /** Re-applying the sorted forms of the children's recorded orders sorts those children again. */
  lemma {:induction false} RedoSortBlocks(s: SortStrategy, n: Node, ks: seq<Node>, i: nat)
    requires n.Dir? && UniqueIds(n) && ks == Sort(s, n.children) && i <= |ks|
    requires forall k :: k in ks ==> k in n.children
    ensures forall k :: k in ks[..i] ==> k in n.children
    ensures RestoreAll(Dir(n.id, n.name, n.tags, ks), Resorted(s, SnapEach(s, ks[..i], n)))
      == Dir(n.id, n.name, n.tags, SortedPrefix(s, ks, i))
    decreases n, 0, i, 2
  {
    if i == 0 {
      RedoNoBlocks(s, n, ks);
    } else {
      RedoSortBlocks(s, n, ks, i - 1);
      RedoSortBlockStep(s, n, ks, i - 1);
    }
  }

  /** No block re-applied: the children stay as the sort left them. */
  lemma RedoNoBlocks(s: SortStrategy, n: Node, ks: seq<Node>)
    requires n.Dir? && forall k :: k in ks ==> k in n.children
    ensures forall k :: k in ks[..0] ==> k in n.children
    ensures RestoreAll(Dir(n.id, n.name, n.tags, ks), Resorted(s, SnapEach(s, ks[..0], n)))
      == Dir(n.id, n.name, n.tags, SortedPrefix(s, ks, 0))
  {
    assert ks[..0] == [];
    assert SortedPrefix(s, ks, 0) == ks;
  }

  /** One more sorted child: its block of entries, re-applied, sorts that child and nothing else. */
  lemma RedoSortBlockStep(s: SortStrategy, n: Node, ks: seq<Node>, k: nat)
    requires n.Dir? && UniqueIds(n) && ks == Sort(s, n.children) && k < |ks|
    requires forall x :: x in ks ==> x in n.children
    requires forall x :: x in ks[..k] ==> x in n.children
    requires RestoreAll(Dir(n.id, n.name, n.tags, ks), Resorted(s, SnapEach(s, ks[..k], n)))
      == Dir(n.id, n.name, n.tags, SortedPrefix(s, ks, k))
    ensures forall x :: x in ks[..k + 1] ==> x in n.children
    ensures RestoreAll(Dir(n.id, n.name, n.tags, ks), Resorted(s, SnapEach(s, ks[..k + 1], n)))
      == Dir(n.id, n.name, n.tags, SortedPrefix(s, ks, k + 1))
    decreases n, 0, k, 1
  {
    var root := Dir(n.id, n.name, n.tags, ks);
    var done := Resorted(s, SnapEach(s, ks[..k], n));
    var block := Resorted(s, SortSnapshots(s, ks[k]));
    SnapEachPrefix(s, ks, k, n);
    ResortedAppend(s, SnapEach(s, ks[..k], n), SortSnapshots(s, ks[k]));
    RestoreAllAppend(root, done, block);
    RedoChildBlock(s, n, ks, k);
  }

  /** The `k`-th child's block, re-applied after the first `k` children are sorted, sorts that child. */
  lemma RedoChildBlock(s: SortStrategy, n: Node, ks: seq<Node>, k: nat)
    requires n.Dir? && UniqueIds(n) && ks == Sort(s, n.children) && k < |ks|
    requires forall x :: x in ks ==> x in n.children
    ensures RestoreAll(Dir(n.id, n.name, n.tags, SortedPrefix(s, ks, k)), Resorted(s, SortSnapshots(s, ks[k])))
      == Dir(n.id, n.name, n.tags, SortedPrefix(s, ks, k + 1))
    decreases n, 0, k, 0
  {
    var block := Resorted(s, SortSnapshots(s, ks[k]));
    RedoBlockIsLocal(s, n, k);
    RestoreInChild(Dir(n.id, n.name, n.tags, SortedPrefix(s, ks, k)), k, block);
    assert ks[k] in n.children;
    var j :| 0 <= j < |n.children| && n.children[j] == ks[k];
    UniqueSiblings(n.children, j, j);
    RedoSort(s, ks[k]);
    SortedPrefixStep(s, ks, k);
  }

  /** Re-applying a directory's sorted order to its unsorted children puts them in sorted order. */
  lemma RedoRootStep(s: SortStrategy, n: Node)
    requires n.Dir? && UniqueIds(n)
    ensures Step(n, (n.id, SortedOrder(s, n.children))) == Dir(n.id, n.name, n.tags, Sort(s, n.children))
  {
    SortSameNodes(s, n.children);
    ChildIdsDistinct(n);
    var ks := Sort(s, n.children);
    var order := SortedOrder(s, n.children);
    forall p | 0 <= p < |ks| ensures Current(n.children, order[p]) == ks[p] {
      assert ks[p] in n.children;
      var k := IndexOf(n.children, ks[p].id);
      var t :| 0 <= t < |n.children| && n.children[t] == ks[p];
    }
    assert Reorder(n.children, order) == ks;
  }

  /** Re-applying the sorted form of every recorded order to the unsorted tree sorts it again. */
  lemma {:induction false} RedoSort(s: SortStrategy, n: Node)
    requires UniqueIds(n)
    ensures RestoreAll(n, Resorted(s, SortSnapshots(s, n))) == SortTree(s, n)
    decreases n, 1
  {
    if n.Dir? {
      SortSameNodes(s, n.children);
      var ks := Sort(s, n.children);
      RedoSortSplit(s, n);
      RedoRootStep(s, n);
      RedoSortBlocks(s, n, ks, |ks|);
      assert ks[..|ks|] == ks;
      SortedPrefixAll(s, n);
    }
  }

  /** The root's entry comes first, then the children's, in sorted order. */
  lemma RedoSortSplit(s: SortStrategy, n: Node)
    requires n.Dir?
    ensures forall k :: k in Sort(s, n.children) ==> k in n.children
    ensures RestoreAll(n, Resorted(s, SortSnapshots(s, n)))
      == RestoreAll(Step(n, (n.id, SortedOrder(s, n.children))), Resorted(s, SnapEach(s, Sort(s, n.children), n)))
  {
    SortSameNodes(s, n.children);
    var ks := Sort(s, n.children);
    var e := (n.id, SortedOrder(s, n.children));
    ResortedAppend(s, [(n.id, n.children)], SnapEach(s, ks, n));
    assert Resorted(s, [(n.id, n.children)]) == [e];
    RestoreAllAppend(n, [e], Resorted(s, SnapEach(s, ks, n)));
    var none: Entries := [];
    assert [e][..0] == none;
  }

  lemma SortedPrefixAll(s: SortStrategy, n: Node)
    requires n.Dir?
    ensures SortedPrefix(s, Sort(s, n.children), |n.children|) == SortTree(s, n).children
  {
  }

  /**
   * A restore command built from a sort's recorded orders, right after that
   * sort: `execute` gives back the unsorted document and `undo` the sorted one.
   */
  lemma SortThenRestoreThenUndo(s: SortStrategy, root: Node)
    requires UniqueIds(root)
    ensures var sorted := SortTree(s, root);
      var orders := PutAll([], SortSnapshots(s, root));
      RestoreAll(sorted, orders) == root
      && RestoreAll(root, PutAll([], Recorded(sorted, orders))) == sorted
  {
    var m := SortSnapshots(s, root);
    SnapshotsDistinct(s, root);
    PutAllEmpty(m);
    ExecuteThenUndo(s, root);
    RecordedSorted(s, root);
    ResortedDistinct(s, m);
    PutAllEmpty(Resorted(s, m));
    RedoSort(s, root);
  }

  /** The text a restore command shows in the history. */
  function RestoreDescription(sortName: string): string {
    "取消排序：" + sortName
  }

  class RestoreSortCommand {
    const tree: Tree
    /** The orders to restore, copied when the command is built. */
    const originalOrders: Entries
    const description: string
    /** The orders the key directories had when `execute` last ran. */
    var sortedOrders: Entries

    constructor(tree: Tree, originalOrders: Entries, sortName: string)
      ensures this.tree == tree && this.originalOrders == originalOrders
      ensures description == RestoreDescription(sortName)
      ensures sortedOrders == []
    {
      this.tree := tree;
      this.originalOrders := originalOrders;
      description := RestoreDescription(sortName);
      sortedOrders := [];
    }

    /** Records every key directory's current order, then restores the original orders. */
    method Execute()
      modifies this, tree
      ensures sortedOrders == PutAll([], Recorded(old(tree.root), originalOrders))
      ensures tree.root == RestoreAll(old(tree.root), originalOrders)
    {
      sortedOrders := [];
      for i := 0 to |originalOrders|
        invariant tree.root == old(tree.root)
        invariant sortedOrders == PutAll([], Recorded(tree.root, originalOrders[..i]))
      {
        RecordStep(tree.root, originalOrders, i);
        sortedOrders := MapPut(sortedOrders, originalOrders[i].0, CurrentOrder(tree.root, originalOrders[i]));
      }
      assert originalOrders[..|originalOrders|] == originalOrders;
      ApplyOrders(tree, originalOrders);
    }

    /** Re-applies the orders recorded by the last `execute`. */
    method Undo()
      modifies tree
      ensures tree.root == RestoreAll(old(tree.root), sortedOrders)
    {
      ApplyOrders(tree, sortedOrders);
    }
  }
}
