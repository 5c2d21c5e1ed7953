// `SortCommand`: every directory under the root is sorted with one strategy,
// top-down, after its current order has been recorded in a map; `undo` walks
// the map and puts each recorded order back.
//
// The source's map holds references: restoring a directory sets its children
// to the same node objects it had, each in whatever state it is in now. Here a
// recorded order holds node values, and restoring takes, for every recorded
// child, the child with the same id that the directory holds now (its current
// state), falling back to the recorded value only when that child is no longer
// there. Directories are found in the tree by id.

module SortCommands {
  import opened Common
  import opened Nodes
  import opened DocumentTree
  import opened SortStrategies

  // ---------------------------------------------------------------------------
  // The order map: `Map<Directory, FileSystemNode[]>`

  /** Directory ids with a recorded children order, in insertion order. */
  type Entries = seq<(NodeId, seq<Node>)>

  /** No directory is recorded twice, as in a `Map`. */
  predicate DistinctKeys(m: Entries) {
    forall i, j :: 0 <= i < j < |m| ==> m[i].0 != m[j].0
  }

  function KeySet(m: Entries): set<NodeId> {
    set e | e in m :: e.0
  }

  /** Taking the first entry off a map. */
  lemma KeysTail(m: Entries)
    requires m != []
    ensures KeySet(m) == {m[0].0} + KeySet(m[1..])
    ensures DistinctKeys(m) ==> DistinctKeys(m[1..]) && m[0].0 !in KeySet(m[1..])
  {
    assert m == [m[0]] + m[1..];
    if DistinctKeys(m) {
      forall i, j | 0 <= i < j < |m[1..]| ensures m[1..][i].0 != m[1..][j].0 {
        assert m[1..][i] == m[i + 1] && m[1..][j] == m[j + 1];
      }
      forall e | e in m[1..] ensures e.0 != m[0].0 {
        var i :| 0 <= i < |m[1..]| && m[1..][i] == e;
        assert m[i + 1] == e;
      }
    }
  }

  /** Putting an entry with a new key in front of a map. */
  lemma KeysCons(e: (NodeId, seq<Node>), m: Entries)
    requires DistinctKeys(m) && e.0 !in KeySet(m)
    ensures DistinctKeys([e] + m)
    ensures KeySet([e] + m) == {e.0} + KeySet(m)
  {
    var r := [e] + m;
    assert r[0] == e && r[1..] == m;
    forall i, j | 0 <= i < j < |r| ensures r[i].0 != r[j].0 {
      assert r[j] == m[j - 1] && m[j - 1] in m;
      if i > 0 {
        assert r[i] == m[i - 1];
      }
    }
    KeysTail(r);
  }

  /** `map.get(dir)` */
  function Get(m: Entries, k: NodeId): (r: Option<seq<Node>>)
    ensures r.None? <==> k !in KeySet(m)
    ensures r.Some? ==> (k, r.value) in m
  {
    if m == [] then None
    else
      KeysTail(m);
      if m[0].0 == k then Some(m[0].1) else Get(m[1..], k)
  }

  /** `map.set(dir, order)`: a recorded directory keeps its place and takes the new order; a new one goes last. */
  function MapPut(m: Entries, k: NodeId, v: seq<Node>): (r: Entries)
    requires DistinctKeys(m)
    ensures DistinctKeys(r)
    ensures KeySet(r) == KeySet(m) + {k}
    ensures k !in KeySet(m) ==> r == m + [(k, v)]
  {
    if m == [] then [(k, v)]
    else
      KeysTail(m);
      if m[0].0 == k then
        KeysCons((k, v), m[1..]);
        [(k, v)] + m[1..]
      else
        var rest := MapPut(m[1..], k, v);
        KeysCons(m[0], rest);
        assert k !in KeySet(m) ==> [m[0]] + rest == m + [(k, v)] by {
          assert m == [m[0]] + m[1..];
        }
        [m[0]] + rest
  }

  /** Reading a key back after setting it gives what was set, and other keys are unaffected. */
  lemma {:induction false} GetAfterPut(m: Entries, k: NodeId, v: seq<Node>, k': NodeId)
    requires DistinctKeys(m)
    ensures Get(MapPut(m, k, v), k) == Some(v)
    ensures k' != k ==> Get(MapPut(m, k, v), k') == Get(m, k')
  {
    if m != [] && m[0].0 != k {
      KeysTail(m);
      GetAfterPut(m[1..], k, v, k');
      var r := MapPut(m, k, v);
      assert r[0] == m[0] && r[1..] == MapPut(m[1..], k, v);
    }
  }

  /** A run of `map.set` calls, in order. */
  function PutAll(m: Entries, es: Entries): (r: Entries)
    requires DistinctKeys(m)
    ensures DistinctKeys(r)
    decreases |es|
  {
    if es == [] then m
    else MapPut(PutAll(m, es[..|es| - 1]), es[|es| - 1].0, es[|es| - 1].1)
  }

  /** Setting keys that are all new, each once, appends them in order. */
  lemma {:induction false} PutAllFresh(m: Entries, es: Entries)
    requires DistinctKeys(m + es)
    ensures DistinctKeys(m)
    ensures PutAll(m, es) == m + es
    decreases |es|
  {
    assert DistinctKeys(m) by {
      forall i, j | 0 <= i < j < |m| ensures m[i].0 != m[j].0 {
        assert (m + es)[i] == m[i] && (m + es)[j] == m[j];
      }
    }
    if es != [] {
      var init := es[..|es| - 1];
      var last := es[|es| - 1];
      assert m + es == (m + init) + [last];
      assert DistinctKeys(m + init) by {
        forall i, j | 0 <= i < j < |m + init| ensures (m + init)[i].0 != (m + init)[j].0 {
          assert (m + init)[i] == (m + es)[i] && (m + init)[j] == (m + es)[j];
        }
      }
      PutAllFresh(m, init);
      assert last.0 !in KeySet(m + init) by {
        forall e | e in m + init ensures e.0 != last.0 {
          var i :| 0 <= i < |m + init| && (m + init)[i] == e;
          assert (m + es)[i] == e && (m + es)[|m + es| - 1] == last;
        }
      }
    }
  }

  lemma {:induction false} PutAllAppend(m: Entries, a: Entries, b: Entries)
    requires DistinctKeys(m)
    ensures PutAll(m, a + b) == PutAll(PutAll(m, a), b)
    decreases |b|
  {
    if b == [] {
      assert a + b == a;
    } else {
      assert (a + b)[..|a + b| - 1] == a + b[..|b| - 1];
      PutAllAppend(m, a, b[..|b| - 1]);
    }
  }

  lemma {:induction false} DistinctKeysAppend(a: Entries, b: Entries)
    requires DistinctKeys(a) && DistinctKeys(b)
    requires forall x, y :: x in a && y in b ==> x.0 != y.0
    ensures DistinctKeys(a + b)
  {
    forall i, j | 0 <= i < j < |a + b| ensures (a + b)[i].0 != (a + b)[j].0 {
      if j < |a| {
        assert (a + b)[i] == a[i] && (a + b)[j] == a[j];
      } else if i < |a| {
        assert (a + b)[i] == a[i] && a[i] in a;
        assert (a + b)[j] == b[j - |a|] && b[j - |a|] in b;
      } else {
        assert (a + b)[i] == b[i - |a|] && (a + b)[j] == b[j - |a|];
      }
    }
  }

  // ---------------------------------------------------------------------------
  // Restoring a recorded order

  /** The child of `current` with `x`'s id, or `x` itself when there is none. */
  function Current(current: seq<Node>, x: Node): (r: Node)
    ensures r.id == x.id
    ensures r in current || r == x
  {
    var k := IndexOf(current, x.id);
    if k == -1 then x else current[k]
  }

  /** `dir.children = [...order]` on references: the recorded order, each child in its current state. */
  function Reorder(current: seq<Node>, order: seq<Node>): (r: seq<Node>)
    ensures |r| == |order|
    ensures forall i :: 0 <= i < |order| ==> r[i].id == order[i].id
  {
    seq(|order|, i requires 0 <= i < |order| => Current(current, order[i]))
  }

  /** One iteration of a restore loop; a directory that is no longer in the tree is left alone. */
  function Step(root: Node, e: (NodeId, seq<Node>)): Node {
    match ChildrenAt(root, e.0)
    case Some(cur) => WithChildren(root, e.0, Reorder(cur, e.1))
    case None => root
  }

  /** A whole restore loop over the map, in its order. */
  function RestoreAll(root: Node, m: Entries): Node
    decreases |m|
  {
    if m == [] then root else Step(RestoreAll(root, m[..|m| - 1]), m[|m| - 1])
  }

  /** The restoring loop of `undo` (and of the restore command's `execute` and `undo`): each directory still in the tree gets the recorded order. */
  method ApplyOrders(tree: Tree, orders: Entries)
    modifies tree
    ensures tree.root == RestoreAll(old(tree.root), orders)
  {
    for i := 0 to |orders|
      invariant tree.root == RestoreAll(old(tree.root), orders[..i])
    {
      assert orders[..i + 1][..i] == orders[..i];
      var (id, order) := orders[i];
      match ChildrenAt(tree.root, id)
      case Some(current) => tree.SetChildren(id, Reorder(current, order));
      case None =>
    }
    assert orders[..|orders|] == orders;
  }

  lemma {:induction false} RestoreAllAppend(root: Node, a: Entries, b: Entries)
    ensures RestoreAll(root, a + b) == RestoreAll(RestoreAll(root, a), b)
    decreases |b|
  {
    if b == [] {
      assert a + b == a;
    } else {
      assert (a + b)[..|a + b| - 1] == a + b[..|b| - 1];
      RestoreAllAppend(root, a, b[..|b| - 1]);
    }
  }

  // ---------------------------------------------------------------------------
  // Locality: an update to a node inside one child stays inside that child

  /** `k` occurs under `cs[j]` and under no other child of `cs`, if anywhere. */
  predicate OnlyIn(cs: seq<Node>, j: int, k: NodeId) {
    0 <= j < |cs| && forall i :: 0 <= i < |cs| && i != j ==> k !in Ids(cs[i])
  }

  lemma {:induction false} IdsOfAbsent(cs: seq<Node>, k: NodeId)
    requires forall i :: 0 <= i < |cs| ==> k !in Ids(cs[i])
    ensures k !in IdsOf(cs)
  {
    if cs != [] {
      assert forall i :: 0 <= i < |cs[1..]| ==> cs[1..][i] == cs[i + 1];
      IdsOfAbsent(cs[1..], k);
    }
  }

  lemma {:induction false} IdsOfChild(cs: seq<Node>, i: nat)
    requires i < |cs|
    ensures Ids(cs[i]) <= IdsOf(cs)
  {
    if i > 0 {
      IdsOfChild(cs[1..], i - 1);
    }
  }

  /** An id is below a list of siblings exactly when it is below one of them. */
  lemma {:induction false} IdsOfSpec(cs: seq<Node>, k: NodeId)
    ensures k in IdsOf(cs) <==> exists i :: 0 <= i < |cs| && k in Ids(cs[i])
  {
    if k in IdsOf(cs) {
      if k !in Ids(cs[0]) {
        IdsOfSpec(cs[1..], k);
        var i :| 0 <= i < |cs[1..]| && k in Ids(cs[1..][i]);
        assert cs[1..][i] == cs[i + 1];
      }
    } else {
      forall i | 0 <= i < |cs| ensures k !in Ids(cs[i]) {
        IdsOfChild(cs, i);
      }
    }
  }

  /** Siblings in a tree with unique ids have disjoint subtrees. */
  lemma {:induction false} UniqueSiblings(cs: seq<Node>, i: nat, j: nat)
    requires UniqueSeq(cs) && i < |cs| && j < |cs|
    ensures UniqueIds(cs[i])
    ensures i != j ==> Ids(cs[i]) !! Ids(cs[j])
  {
    if i == 0 {
      if j > 0 {
        IdsOfChild(cs[1..], j - 1);
      }
    } else if j == 0 {
      IdsOfChild(cs[1..], i - 1);
      UniqueSiblings(cs[1..], i - 1, i - 1);
    } else {
      UniqueSiblings(cs[1..], i - 1, j - 1);
    }
  }

  /** In a tree with unique ids, no two children share an id. */
  lemma ChildIdsDistinct(d: Node)
    requires d.Dir? && UniqueIds(d)
    ensures forall i, j :: 0 <= i < |d.children| && 0 <= j < |d.children| && d.children[i].id == d.children[j].id ==> i == j
    ensures NoDups(d.children)
  {
    forall i, j | 0 <= i < |d.children| && 0 <= j < |d.children| && i != j
      ensures d.children[i].id != d.children[j].id
    {
      UniqueSiblings(d.children, i, j);
    }
  }

  lemma {:induction false} FindInOnly(cs: seq<Node>, j: nat, k: NodeId)
    requires OnlyIn(cs, j, k)
    ensures FindIn(cs, k) == Find(cs[j], k)
  {
    assert forall i :: 0 <= i < |cs[1..]| ==> cs[1..][i] == cs[i + 1];
    if j == 0 {
      if Find(cs[0], k).None? {
        IdsOfAbsent(cs[1..], k);
        FindInSpec(cs[1..], k);
      }
    } else {
      FindSpec(cs[0], k);
      FindInOnly(cs[1..], j - 1, k);
    }
  }

  lemma {:induction false} ReplaceInOnly(cs: seq<Node>, j: nat, k: NodeId, x: Node)
    requires OnlyIn(cs, j, k)
    ensures ReplaceIn(cs, k, x) == cs[j := ReplaceNode(cs[j], k, x)]
  {
    assert forall i :: 0 <= i < |cs[1..]| ==> cs[1..][i] == cs[i + 1];
    if j == 0 {
      IdsOfAbsent(cs[1..], k);
      ReplaceInAbsent(cs[1..], k, x);
    } else {
      ReplaceAbsent(cs[0], k, x);
      ReplaceInOnly(cs[1..], j - 1, k, x);
      assert [cs[0]] + cs[1..][j - 1 := ReplaceNode(cs[j], k, x)] == cs[j := ReplaceNode(cs[j], k, x)];
    }
  }

  /** Restoring a directory that lies under child `j` changes only child `j`. */
  lemma StepInChild(d: Node, j: nat, e: (NodeId, seq<Node>))
    requires d.Dir? && OnlyIn(d.children, j, e.0) && e.0 != d.id
    ensures Step(d, e) == Dir(d.id, d.name, d.tags, d.children[j := Step(d.children[j], e)])
  {
    FindInOnly(d.children, j, e.0);
    match Find(d.children[j], e.0)
    case Some(x) =>
      if x.Dir? {
        ReplaceInOnly(d.children, j, e.0, x.(children := Reorder(x.children, e.1)));
      } else {
        assert d.children[j := d.children[j]] == d.children;
      }
    case None =>
      assert d.children[j := d.children[j]] == d.children;
  }

  /** A restore loop whose directories all lie under child `j` changes only child `j`. */
  lemma {:induction false} RestoreInChild(d: Node, j: nat, m: Entries)
    requires d.Dir? && j < |d.children|
    requires forall e :: e in m ==> OnlyIn(d.children, j, e.0) && e.0 != d.id
    ensures RestoreAll(d, m) == Dir(d.id, d.name, d.tags, d.children[j := RestoreAll(d.children[j], m)])
    decreases |m|
  {
    if m == [] {
      assert d.children[j := d.children[j]] == d.children;
    } else {
      var init := m[..|m| - 1];
      var e := m[|m| - 1];
      assert e in m;
      assert forall x :: x in init ==> x in m;
      RestoreInChild(d, j, init);
      var mid := RestoreAll(d, init);
      assert forall i :: 0 <= i < |d.children| && i != j ==> mid.children[i] == d.children[i];
      StepInChild(mid, j, e);
      assert mid.children[j := Step(mid.children[j], e)] == d.children[j := RestoreAll(d.children[j], m)];
    }
  }

  // ---------------------------------------------------------------------------
  // What `execute` computes

  /**
   * `sortRecursive` on a directory: its children sorted by the strategy, then
   * each of them sorted the same way, in the sorted order. A file is left as is.
   */
  function SortTree(s: SortStrategy, n: Node): (r: Node)
    ensures r.id == n.id && r.name == n.name && r.tags == n.tags && r.Dir? == n.Dir?
    ensures r.Dir? ==> |r.children| == |n.children|
    decreases n, 1
  {
    if n.Dir? then
      SortSameNodes(s, n.children);
      Dir(n.id, n.name, n.tags, SortEach(s, Sort(s, n.children), n))
    else n
  }

  function SortEach(s: SortStrategy, ks: seq<Node>, ghost parent: Node): (r: seq<Node>)
    requires parent.Dir? && forall k :: k in ks ==> k in parent.children
    ensures |r| == |ks|
    decreases parent, 0
  {
    seq(|ks|, i requires 0 <= i < |ks| => assert ks[i] in parent.children; SortTree(s, ks[i]))
  }

  /** The orders `sortRecursive` records, one per directory, each taken before that directory is sorted. */
  function SortSnapshots(s: SortStrategy, n: Node): Entries
    decreases n, 1
  {
    if n.Dir? then
      SortSameNodes(s, n.children);
      [(n.id, n.children)] + SnapEach(s, Sort(s, n.children), n)
    else []
  }

  function SnapEach(s: SortStrategy, ks: seq<Node>, ghost parent: Node): Entries
    requires parent.Dir? && forall k :: k in ks ==> k in parent.children
    decreases parent, 0, |ks|
  {
    if ks == [] then []
    else
      assert ks[|ks| - 1] in parent.children;
      SnapEach(s, ks[..|ks| - 1], parent) + SortSnapshots(s, ks[|ks| - 1])
  }

  // ---------------------------------------------------------------------------
  // Sorting changes order only

  /** Sorting changes only the order of children: the subtree keeps exactly its ids. */
  lemma {:induction false} SortTreeIds(s: SortStrategy, n: Node)
    ensures Ids(SortTree(s, n)) == Ids(n)
    decreases n, 1
  {
    if n.Dir? {
      SortSameNodes(s, n.children);
      var ks := Sort(s, n.children);
      var r := SortEach(s, ks, n);
      forall i | 0 <= i < |ks| ensures Ids(r[i]) == Ids(ks[i]) {
        assert ks[i] in n.children;
        SortTreeIds(s, ks[i]);
      }
      forall k ensures k in IdsOf(r) <==> k in IdsOf(n.children) {
        IdsOfSpec(r, k);
        IdsOfSpec(n.children, k);
        if k in IdsOf(r) {
          var i :| 0 <= i < |r| && k in Ids(r[i]);
          assert ks[i] in n.children;
          var j :| 0 <= j < |n.children| && n.children[j] == ks[i];
          assert k in Ids(n.children[j]);
        }
        if k in IdsOf(n.children) {
          var j :| 0 <= j < |n.children| && k in Ids(n.children[j]);
          assert n.children[j] in ks;
          var i :| 0 <= i < |ks| && ks[i] == n.children[j];
          assert k in Ids(r[i]);
        }
      }
    }
  }

  /** Every recorded directory lies in the sorted subtree. */
  lemma {:induction false} SnapshotKeys(s: SortStrategy, n: Node)
    ensures forall e :: e in SortSnapshots(s, n) ==> e.0 in Ids(n)
    decreases n, 1
  {
    if n.Dir? {
      SortSameNodes(s, n.children);
      var ks := Sort(s, n.children);
      SnapEachKeys(s, ks, n);
      forall e | e in SortSnapshots(s, n) ensures e.0 in Ids(n) {
        if e in SnapEach(s, ks, n) {
          var i :| 0 <= i < |ks| && e.0 in Ids(ks[i]);
          assert ks[i] in n.children;
          var j :| 0 <= j < |n.children| && n.children[j] == ks[i];
          IdsOfChild(n.children, j);
        }
      }
    }
  }

  lemma {:induction false} SnapEachKeys(s: SortStrategy, ks: seq<Node>, parent: Node)
    requires parent.Dir? && forall k :: k in ks ==> k in parent.children
    ensures forall e :: e in SnapEach(s, ks, parent) ==> exists i :: 0 <= i < |ks| && e.0 in Ids(ks[i])
    decreases parent, 0, |ks|
  {
    if ks != [] {
      var init := ks[..|ks| - 1];
      var last := ks[|ks| - 1];
      assert last in parent.children;
      assert forall k :: k in init ==> k in ks;
      SnapEachKeys(s, init, parent);
      SnapshotKeys(s, last);
      forall e | e in SnapEach(s, ks, parent) ensures exists i :: 0 <= i < |ks| && e.0 in Ids(ks[i]) {
        if e in SnapEach(s, init, parent) {
          var i :| 0 <= i < |init| && e.0 in Ids(init[i]);
          assert init[i] == ks[i];
        } else {
          assert e.0 in Ids(ks[|ks| - 1]);
        }
      }
    }
  }

  /** In a tree with unique ids, no directory is recorded twice. */
  lemma {:induction false} SnapshotsDistinct(s: SortStrategy, n: Node)
    requires UniqueIds(n)
    ensures DistinctKeys(SortSnapshots(s, n))
    decreases n, 1
  {
    if n.Dir? {
      SortSameNodes(s, n.children);
      var ks := Sort(s, n.children);
      ChildIdsDistinct(n);
      SortKeepsDistinct(s, n.children);
      SnapEachDistinct(s, ks, n);
      SnapEachKeys(s, ks, n);
      var rest := SnapEach(s, ks, n);
      assert n.id !in KeySet(rest) by {
        forall e | e in rest ensures e.0 != n.id {
          var i :| 0 <= i < |ks| && e.0 in Ids(ks[i]);
          assert ks[i] in n.children;
          var j :| 0 <= j < |n.children| && n.children[j] == ks[i];
          IdsOfChild(n.children, j);
        }
      }
      KeysCons((n.id, n.children), rest);
    }
  }

  lemma {:induction false} SnapEachDistinct(s: SortStrategy, ks: seq<Node>, parent: Node)
    requires parent.Dir? && UniqueIds(parent) && NoDups(ks)
    requires forall k :: k in ks ==> k in parent.children
    ensures DistinctKeys(SnapEach(s, ks, parent))
    decreases parent, 0, |ks|
  {
    if ks != [] {
      var init := ks[..|ks| - 1];
      var last := ks[|ks| - 1];
      assert forall k :: k in init ==> k in ks;
      assert NoDups(init) by {
        forall i, j | 0 <= i < j < |init| ensures init[i] != init[j] {
          assert init[i] == ks[i] && init[j] == ks[j];
        }
      }
      SnapEachDistinct(s, init, parent);
      assert last in parent.children;
      var j :| 0 <= j < |parent.children| && parent.children[j] == last;
      UniqueSiblings(parent.children, j, j);
      SnapshotsDistinct(s, last);
      SnapEachKeys(s, init, parent);
      SnapshotKeys(s, last);
      forall x, y | x in SnapEach(s, init, parent) && y in SortSnapshots(s, last) ensures x.0 != y.0 {
        var i :| 0 <= i < |init| && x.0 in Ids(init[i]);
        assert init[i] == ks[i] && ks[i] != last;
        assert init[i] in parent.children;
        var p :| 0 <= p < |parent.children| && parent.children[p] == init[i];
        UniqueSiblings(parent.children, p, j);
      }
      DistinctKeysAppend(SnapEach(s, init, parent), SortSnapshots(s, last));
    }
  }

  // ---------------------------------------------------------------------------
  // `execute; undo` is the identity

  /** The children `cs`, those listed in `done` in their original state and the others sorted. */
  function Partial(s: SortStrategy, cs: seq<Node>, done: seq<Node>): (r: seq<Node>)
    ensures |r| == |cs|
  {
    seq(|cs|, i requires 0 <= i < |cs| => if cs[i] in done then cs[i] else SortTree(s, cs[i]))
  }

  /** Restoring the root's recorded order on the sorted tree puts every (still sorted) child back in its place. */
  lemma ReorderSorted(s: SortStrategy, n: Node)
    requires n.Dir? && UniqueIds(n)
    ensures Reorder(SortTree(s, n).children, n.children) == Partial(s, n.children, [])
  {
    SortSameNodes(s, n.children);
    ChildIdsDistinct(n);
    var ks := Sort(s, n.children);
    var sorted := SortTree(s, n).children;
    forall i | 0 <= i < |n.children|
      ensures Current(sorted, n.children[i]) == SortTree(s, n.children[i])
    {
      var c := n.children[i];
      assert c in ks;
      var p :| 0 <= p < |ks| && ks[p] == c;
      assert sorted == SortEach(s, ks, n);
      assert sorted[p] == SortTree(s, ks[p]);
      var k := IndexOf(sorted, c.id);
      assert sorted[k] == SortTree(s, ks[k]);
      assert ks[k] in n.children;
      var t :| 0 <= t < |n.children| && n.children[t] == ks[k];
      assert n.children[t].id == c.id;
    }
  }

  /** Restoring one more child, not restored before, in the children list. */
  lemma PartialStep(s: SortStrategy, cs: seq<Node>, done: seq<Node>, j: nat)
    requires NoDups(cs) && j < |cs| && cs[j] !in done
    ensures Partial(s, cs, done)[j := cs[j]] == Partial(s, cs, done + [cs[j]])
    ensures Partial(s, cs, done)[j] == SortTree(s, cs[j])
  {
  }

  /** The directories recorded under child `j` lie under that child only, whatever has been restored so far. */
  lemma BlockIsLocal(s: SortStrategy, n: Node, done: seq<Node>, j: nat)
    requires n.Dir? && UniqueIds(n) && j < |n.children|
    ensures forall e :: e in SortSnapshots(s, n.children[j]) ==>
      OnlyIn(Partial(s, n.children, done), j, e.0) && e.0 != n.id
  {
    var cs := Partial(s, n.children, done);
    SnapshotKeys(s, n.children[j]);
    IdsOfChild(n.children, j);
    forall e | e in SortSnapshots(s, n.children[j]) ensures OnlyIn(cs, j, e.0) {
      forall i | 0 <= i < |cs| && i != j ensures e.0 !in Ids(cs[i]) {
        UniqueSiblings(n.children, i, j);
        SortTreeIds(s, n.children[i]);
      }
    }
  }

  /** Undoing the recorded orders of some children, each once, restores exactly those children. */
  lemma {:induction false} UndoSortBlocks(s: SortStrategy, n: Node, ks: seq<Node>)
    requires n.Dir? && UniqueIds(n) && NoDups(ks)
    requires forall k :: k in ks ==> k in n.children
    ensures RestoreAll(Dir(n.id, n.name, n.tags, Partial(s, n.children, [])), SnapEach(s, ks, n))
         == Dir(n.id, n.name, n.tags, Partial(s, n.children, ks))
    decreases n, 0, |ks|
  {
    if ks != [] {
      var init := ks[..|ks| - 1];
      var last := ks[|ks| - 1];
      assert ks == init + [last];
      assert forall k :: k in init ==> k in ks;
      assert NoDups(init) && last !in init by {
        forall i, j | 0 <= i < j < |init| ensures init[i] != init[j] {
          assert init[i] == ks[i] && init[j] == ks[j];
        }
        forall i | 0 <= i < |init| ensures init[i] != last {
          assert init[i] == ks[i];
        }
      }
      UndoSortBlocks(s, n, init);
      var start := Dir(n.id, n.name, n.tags, Partial(s, n.children, []));
      var mid := Dir(n.id, n.name, n.tags, Partial(s, n.children, init));
      RestoreAllAppend(start, SnapEach(s, init, n), SortSnapshots(s, last));
      assert last in n.children;
      var j :| 0 <= j < |n.children| && n.children[j] == last;
      BlockIsLocal(s, n, init, j);
      RestoreInChild(mid, j, SortSnapshots(s, last));
      ChildIdsDistinct(n);
      PartialStep(s, n.children, init, j);
      UniqueSiblings(n.children, j, j);
      UndoSort(s, last);
    }
  }

  /** Undoing the recorded orders, in the order they were recorded, turns the sorted tree back into the original. */
  lemma {:induction false} UndoSort(s: SortStrategy, n: Node)
    requires UniqueIds(n)
    ensures RestoreAll(SortTree(s, n), SortSnapshots(s, n)) == n
    decreases n, 1
  {
    if n.Dir? {
      SortSameNodes(s, n.children);
      var ks := Sort(s, n.children);
      var sorted := SortTree(s, n);
      var e := (n.id, n.children);
      ReorderSorted(s, n);
      assert Step(sorted, e) == Dir(n.id, n.name, n.tags, Partial(s, n.children, []));
      var none: Entries := [];
      assert RestoreAll(sorted, [e]) == Step(sorted, e) by {
        assert [e][..0] == none;
      }
      RestoreAllAppend(sorted, [e], SnapEach(s, ks, n));
      ChildIdsDistinct(n);
      SortKeepsDistinct(s, n.children);
      UndoSortBlocks(s, n, ks);
      assert Partial(s, n.children, ks) == n.children;
    }
  }

  /** What `execute` followed by `undo` does to a document whose ids are unique: nothing. */
  lemma ExecuteThenUndo(s: SortStrategy, root: Node)
    requires UniqueIds(root)
    ensures RestoreAll(SortTree(s, root), PutAll([], SortSnapshots(s, root))) == root
  {
    SnapshotsDistinct(s, root);
    assert [] + SortSnapshots(s, root) == SortSnapshots(s, root);
    PutAllFresh([], SortSnapshots(s, root));
    UndoSort(s, root);
  }

  /** One more child's recorded orders, appended to those of the children before it. */
  lemma SnapEachStep(s: SortStrategy, ks: seq<Node>, i: nat, d: Node, start: Entries, head: Entries)
    requires d.Dir? && i < |ks| && forall k :: k in ks ==> k in d.children
    requires DistinctKeys(start)
    ensures PutAll(PutAll(start, head + SnapEach(s, ks[..i], d)), SortSnapshots(s, ks[i]))
         == PutAll(start, head + SnapEach(s, ks[..i + 1], d))
  {
    assert forall k :: k in ks[..i] ==> k in ks;
    assert forall k :: k in ks[..i + 1] ==> k in ks;
    assert ks[..i + 1][..i] == ks[..i] && ks[..i + 1][i] == ks[i];
    assert head + SnapEach(s, ks[..i + 1], d) == head + SnapEach(s, ks[..i], d) + SortSnapshots(s, ks[i]);
    PutAllAppend(start, head + SnapEach(s, ks[..i], d), SortSnapshots(s, ks[i]));
  }

  // ---------------------------------------------------------------------------
  // The command

  /** The text a sort command shows in the history. */
  function SortDescription(s: SortStrategy): string {
    "排序：" + StrategyName(s)
  }

  class SortCommand {
    /** The document whose root directory is sorted. */
    const tree: Tree
    /** The strategy; its kind and direction are the command's `sortType` and `ascending`. */
    const strategy: SortStrategy
    const description: string
    /** `previousOrders`: the order of each directory before the last `execute`. */
    var previousOrders: Entries

    constructor(tree: Tree, strategy: SortStrategy)
      ensures this.tree == tree && this.strategy == strategy
      ensures description == SortDescription(strategy)
      ensures previousOrders == []
    {
      this.tree := tree;
      this.strategy := strategy;
      description := SortDescription(strategy);
      previousOrders := [];
    }

    /** Clears the recorded orders, then sorts every directory from the root down. */
    method Execute()
      modifies this, tree
      ensures tree.root == SortTree(strategy, old(tree.root))
      ensures previousOrders == PutAll([], SortSnapshots(strategy, old(tree.root)))
    {
      previousOrders := [];
      if tree.root.Dir? {
        var sorted := SortRecursive(tree.root);
        tree.root := sorted;
      }
    }

    /** Puts back every recorded order, in the order the directories were recorded. */
    method Undo()
      modifies tree
      ensures tree.root == RestoreAll(old(tree.root), previousOrders)
    {
      ApplyOrders(tree, previousOrders);
    }

    /**
     * `sortRecursive(dir)`: records the directory's order, sorts its children,
     * then sorts each child directory in the new order. The subtree is built as
     * a value and returned.
     */
    method SortRecursive(d: Node) returns (sorted: Node)
      requires d.Dir? && DistinctKeys(previousOrders)
      modifies this
      ensures sorted == SortTree(strategy, d)
      ensures previousOrders == PutAll(old(previousOrders), SortSnapshots(strategy, d))
      decreases d, 1
    {
      var head := [(d.id, d.children)];
      previousOrders := MapPut(previousOrders, d.id, d.children);
      assert previousOrders == PutAll(old(previousOrders), head) by {
        assert head[..0] == [];
      }
      SortSameNodes(strategy, d.children);
      var kids := SortChildren(d, Sort(strategy, d.children), old(previousOrders), head);
      PutAllAppend(old(previousOrders), head, SnapEach(strategy, Sort(strategy, d.children), d));
      sorted := Dir(d.id, d.name, d.tags, kids);
    }

    /** The loop of `sortRecursive` over the sorted children `ks` of `d`. */
    method SortChildren(ghost d: Node, ks: seq<Node>, ghost start: Entries, ghost head: Entries) returns (kids: seq<Node>)
      requires d.Dir? && forall k :: k in ks ==> k in d.children
      requires DistinctKeys(start) && previousOrders == PutAll(start, head)
      modifies this
      ensures kids == SortEach(strategy, ks, d)
      ensures previousOrders == PutAll(start, head + SnapEach(strategy, ks, d))
      decreases d, 0
    {
      kids := ks;
      ghost var want := SortEach(strategy, ks, d);
      var i := 0;
      assert ks[..0] == [] && head + [] == head;
      assert previousOrders == PutAll(start, head + SnapEach(strategy, ks[..0], d));
      while i < |kids|
        invariant 0 <= i <= |kids| == |ks|
        invariant forall j :: 0 <= j < i ==> kids[j] == want[j]
        invariant forall j :: i <= j < |ks| ==> kids[j] == ks[j]
        invariant previousOrders == PutAll(start, head + SnapEach(strategy, ks[..i], d))
      {
        assert ks[i] in d.children;
        SnapEachStep(strategy, ks, i, d, start, head);
        ghost var prev := previousOrders;
        if kids[i].Dir? {
          var child := SortRecursive(kids[i]);
          kids := kids[i := child];
        } else {
          assert SortSnapshots(strategy, ks[i]) == [];
          assert PutAll(prev, []) == prev;
        }
        assert previousOrders == PutAll(prev, SortSnapshots(strategy, ks[i]));
        assert kids[i] == SortTree(strategy, ks[i]) == want[i];
        i := i + 1;
      }
      assert ks[..i] == ks;
      assert kids == want;
    }
  }
}
