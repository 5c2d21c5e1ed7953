// The tag mediator: a forward index (node id to its tags), a reverse index
// (tag to the ids carrying it) and a registry of the nodes it has seen. Every
// tag change goes through it, and it keeps the node's own `tags` in step.
//
// The registry maps ids to node references in the source; here it is the
// set of registered ids, and `NodesByLabel` answers with ids, which a caller
// resolves in the tree.

module TagMediators {
  import opened Common
  import opened Tags
  import opened Nodes
  import opened DocumentTree
  import opened LabelFlyweight

  type Forward = map<NodeId, TagSet>
  type Reverse = map<TagType, OrderedSet<NodeId>>

  /** The three indexes together. */
  datatype Index = Index(forward: Forward, reverse: Reverse, registry: set<NodeId>)

  const EmptyIndex := Index(map[], map[], {})

  /** `nodeToLabels.get(id)`, an absent entry read as the empty set. */
  function Fwd(f: Forward, id: NodeId): TagSet {
    if id in f then f[id] else []
  }

  /** `labelToNodeIds.get(t)`, an absent entry read as the empty set. */
  function Rev(r: Reverse, t: TagType): OrderedSet<NodeId> {
    if t in r then r[t] else []
  }

  predicate Holds(f: Forward, id: NodeId, t: TagType) {
    t in Fwd(f, id)
  }

  predicate Lists(r: Reverse, t: TagType, id: NodeId) {
    id in Rev(r, t)
  }

  /** The two indexes are inverse relations, and every indexed id is registered. */
  ghost predicate Valid(ix: Index) {
    (forall id, t :: Holds(ix.forward, id, t) <==> Lists(ix.reverse, t, id))
    && (forall t, id :: Lists(ix.reverse, t, id) ==> id in ix.registry)
  }

  // ---------------------------------------------------------------------------
  // The index updates

  /** The index half of `addTag`: the tag in the node's set and the node in the tag's set. */
  function IndexTag(ix: Index, id: NodeId, t: TagType): Index {
    ix.(forward := ix.forward[id := SetAdd(Fwd(ix.forward, id), t)],
        reverse := ix.reverse[t := SetAdd(Rev(ix.reverse, t), id)])
  }

  /** The index half of `removeTag`: absent sets stay absent. */
  function UnindexTag(ix: Index, id: NodeId, t: TagType): Index {
    ix.(forward := if id in ix.forward then ix.forward[id := SetDelete(ix.forward[id], t)] else ix.forward,
        reverse := if t in ix.reverse then ix.reverse[t := SetDelete(ix.reverse[t], id)] else ix.reverse)
  }

  /** `addTag` on the indexes: index the pair and register the node. */
  function AddTagIndex(ix: Index, id: NodeId, t: TagType): Index {
    IndexTag(ix, id, t).(registry := ix.registry + {id})
  }

  /** `registerNode`: register the node, then index each of its tags in order. */
  function Register(ix: Index, id: NodeId, tags: seq<TagType>): Index {
    IndexTags(ix.(registry := ix.registry + {id}), id, tags)
  }

  function IndexTags(ix: Index, id: NodeId, tags: seq<TagType>): Index
    decreases |tags|
  {
    if tags == [] then ix else IndexTag(IndexTags(ix, id, tags[..|tags| - 1]), id, tags[|tags| - 1])
  }

  /** The `delete(node.id)` from every reverse set `unregisterNode` visits. */
  function UnlistAll(r: Reverse, id: NodeId, ts: seq<TagType>): Reverse
    decreases |ts|
  {
    if ts == [] then r
    else
      var r' := UnlistAll(r, id, ts[..|ts| - 1]);
      var t := ts[|ts| - 1];
      if t in r' then r'[t := SetDelete(r'[t], id)] else r'
  }

  /** `unregisterNode` on the indexes. */
  function Unregister(ix: Index, id: NodeId): Index {
    Index(ix.forward - {id}, UnlistAll(ix.reverse, id, Fwd(ix.forward, id)), ix.registry - {id})
  }

  /** The nodes of a tree in the order `walkTree` registers them: pre-order. */
  function PreOrder(n: Node): (r: seq<Node>)
    ensures |r| >= 1 && r[0] == n
  {
    [n] + (if n.Dir? then PreOrderOf(n.children) else [])
  }

  function PreOrderOf(cs: seq<Node>): seq<Node> {
    if cs == [] then [] else PreOrder(cs[0]) + PreOrderOf(cs[1..])
  }

  /** Registering a list of nodes in order. */
  function RegisterAll(ix: Index, ns: seq<Node>): Index
    decreases |ns|
  {
    if ns == [] then ix
    else
      var last := ns[|ns| - 1];
      Register(RegisterAll(ix, ns[..|ns| - 1]), last.id, last.tags)
  }

  // ---------------------------------------------------------------------------
  // The updates keep the indexes inverse to each other

  lemma {:induction false} IndexTagValid(ix: Index, id: NodeId, t: TagType)
    requires Valid(ix) && id in ix.registry
    ensures Valid(IndexTag(ix, id, t))
    ensures Holds(IndexTag(ix, id, t).forward, id, t)
    ensures forall k, u :: Holds(IndexTag(ix, id, t).forward, k, u) <==> Holds(ix.forward, k, u) || (k == id && u == t)
  {
    var ix' := IndexTag(ix, id, t);
    forall k, u ensures Holds(ix'.forward, k, u) <==> Holds(ix.forward, k, u) || (k == id && u == t) {
    }
    forall k, u ensures Lists(ix'.reverse, u, k) <==> Lists(ix.reverse, u, k) || (k == id && u == t) {
    }
  }

  lemma {:induction false} UnindexTagValid(ix: Index, id: NodeId, t: TagType)
    requires Valid(ix)
    ensures Valid(UnindexTag(ix, id, t))
    ensures !Holds(UnindexTag(ix, id, t).forward, id, t)
    ensures forall k, u :: Holds(UnindexTag(ix, id, t).forward, k, u) <==> Holds(ix.forward, k, u) && !(k == id && u == t)
  {
    var ix' := UnindexTag(ix, id, t);
    forall k, u ensures Holds(ix'.forward, k, u) <==> Holds(ix.forward, k, u) && !(k == id && u == t) {
    }
    forall k, u ensures Lists(ix'.reverse, u, k) <==> Lists(ix.reverse, u, k) && !(k == id && u == t) {
    }
  }

  lemma {:induction false} IndexTagsValid(ix: Index, id: NodeId, tags: seq<TagType>)
    requires Valid(ix) && id in ix.registry
    ensures Valid(IndexTags(ix, id, tags)) && IndexTags(ix, id, tags).registry == ix.registry
    ensures forall k, u :: Holds(IndexTags(ix, id, tags).forward, k, u) <==> Holds(ix.forward, k, u) || (k == id && u in tags)
    decreases |tags|
  {
    if tags != [] {
      var init := tags[..|tags| - 1];
      IndexTagsValid(ix, id, init);
      IndexTagValid(IndexTags(ix, id, init), id, tags[|tags| - 1]);
      IndexTagsLast(ix, id, tags);
      InSnoc(tags);
    }
  }

  lemma IndexTagsLast(ix: Index, id: NodeId, tags: seq<TagType>)
    requires tags != []
    ensures IndexTags(ix, id, tags) == IndexTag(IndexTags(ix, id, tags[..|tags| - 1]), id, tags[|tags| - 1])
  {
  }

  lemma InSnoc<T>(s: seq<T>)
    requires s != []
    ensures forall x :: x in s <==> x in s[..|s| - 1] || x == s[|s| - 1]
  {
    assert s == s[..|s| - 1] + [s[|s| - 1]];
  }

  /** Registering a node indexes exactly its tags, in addition to what was indexed. */
  lemma RegisterValid(ix: Index, id: NodeId, tags: seq<TagType>)
    requires Valid(ix)
    ensures Valid(Register(ix, id, tags)) && Register(ix, id, tags).registry == ix.registry + {id}
    ensures forall k, u :: Holds(Register(ix, id, tags).forward, k, u) <==> Holds(ix.forward, k, u) || (k == id && u in tags)
  {
    IndexTagsValid(ix.(registry := ix.registry + {id}), id, tags);
  }

  lemma {:induction false} UnlistAllSpec(r: Reverse, id: NodeId, ts: seq<TagType>)
    ensures forall t, k :: Lists(UnlistAll(r, id, ts), t, k) <==> Lists(r, t, k) && !(k == id && t in ts)
    decreases |ts|
  {
    if ts != [] {
      var init := ts[..|ts| - 1];
      UnlistAllSpec(r, id, init);
      assert ts == init + [ts[|ts| - 1]];
    }
  }

  /** Unregistering a node drops it from both indexes and from the registry, keeping the rest. */
  lemma UnregisterValid(ix: Index, id: NodeId)
    requires Valid(ix)
    ensures Valid(Unregister(ix, id))
    ensures forall t :: !Lists(Unregister(ix, id).reverse, t, id) && !Holds(Unregister(ix, id).forward, id, t)
    ensures forall k, t :: k != id ==>
      (Holds(Unregister(ix, id).forward, k, t) <==> Holds(ix.forward, k, t))
  {
    UnlistAllSpec(ix.reverse, id, Fwd(ix.forward, id));
    var ix' := Unregister(ix, id);
    forall k, t ensures Holds(ix'.forward, k, t) <==> Holds(ix.forward, k, t) && k != id {
    }
  }

  lemma {:induction false} RegisterAllValid(ix: Index, ns: seq<Node>)
    requires Valid(ix)
    ensures Valid(RegisterAll(ix, ns))
    ensures forall k, u :: Holds(RegisterAll(ix, ns).forward, k, u) <==>
      Holds(ix.forward, k, u) || exists i :: 0 <= i < |ns| && ns[i].id == k && u in ns[i].tags
    decreases |ns|
  {
    if ns != [] {
      var init := ns[..|ns| - 1];
      var last := ns[|ns| - 1];
      RegisterAllValid(ix, init);
      RegisterValid(RegisterAll(ix, init), last.id, last.tags);
      forall k, u ensures Holds(RegisterAll(ix, ns).forward, k, u) <==>
        Holds(ix.forward, k, u) || exists i :: 0 <= i < |ns| && ns[i].id == k && u in ns[i].tags
      {
        if exists i :: 0 <= i < |ns| && ns[i].id == k && u in ns[i].tags {
          var i :| 0 <= i < |ns| && ns[i].id == k && u in ns[i].tags;
          if i < |init| {
            assert init[i] == ns[i];
          }
        }
        if exists i :: 0 <= i < |init| && init[i].id == k && u in init[i].tags {
          var i :| 0 <= i < |init| && init[i].id == k && u in init[i].tags;
          assert ns[i] == init[i];
        }
      }
    }
  }

  lemma {:induction false} RegisterAllAppend(ix: Index, a: seq<Node>, b: seq<Node>)
    ensures RegisterAll(ix, a + b) == RegisterAll(RegisterAll(ix, a), b)
    decreases |b|
  {
    if b == [] {
      assert a + b == a;
    } else {
      assert (a + b)[..|a + b| - 1] == a + b[..|b| - 1];
      RegisterAllAppend(ix, a, b[..|b| - 1]);
    }
  }

  lemma {:induction false} PreOrderOfAppend(a: seq<Node>, b: seq<Node>)
    ensures PreOrderOf(a + b) == PreOrderOf(a) + PreOrderOf(b)
  {
    if a == [] {
      assert a + b == b;
    } else {
      assert (a + b)[1..] == a[1..] + b;
      PreOrderOfAppend(a[1..], b);
    }
  }

  /** The nodes `walkTree` registers are exactly the nodes of the tree. */
  lemma {:induction false} PreOrderContents(n: Node)
    ensures forall x :: x in PreOrder(n) <==> Contains(n, x)
  {
    if n.Dir? {
      PreOrderOfContents(n.children);
    }
  }

  lemma {:induction false} PreOrderOfContents(cs: seq<Node>)
    ensures forall x :: x in PreOrderOf(cs) <==> ContainsIn(cs, x)
  {
    if cs != [] {
      PreOrderContents(cs[0]);
      PreOrderOfContents(cs[1..]);
    }
  }

  /**
   * After `syncFromTree`, the forward index lists for each node of a tree
   * with unique ids exactly that node's tags, and nothing else is indexed.
   */
  lemma SyncIndexesTree(root: Node)
    requires UniqueIds(root)
    ensures Valid(RegisterAll(EmptyIndex, PreOrder(root)))
    ensures forall x :: Contains(root, x) ==>
      forall t :: Holds(RegisterAll(EmptyIndex, PreOrder(root)).forward, x.id, t) <==> t in x.tags
    ensures forall k, t :: Holds(RegisterAll(EmptyIndex, PreOrder(root)).forward, k, t) ==> k in Ids(root)
  {
    var ns := PreOrder(root);
    RegisterAllValid(EmptyIndex, ns);
    PreOrderContents(root);
    forall x, t | Contains(root, x)
      ensures Holds(RegisterAll(EmptyIndex, ns).forward, x.id, t) <==> t in x.tags
    {
      assert x in ns;
      var i :| 0 <= i < |ns| && ns[i] == x;
      if Holds(RegisterAll(EmptyIndex, ns).forward, x.id, t) {
        var j :| 0 <= j < |ns| && ns[j].id == x.id && t in ns[j].tags;
        assert ns[j] in ns;
        FindUnique(root, x);
        FindUnique(root, ns[j]);
      }
    }
    forall k, t | Holds(RegisterAll(EmptyIndex, ns).forward, k, t) ensures k in Ids(root) {
      var j :| 0 <= j < |ns| && ns[j].id == k && t in ns[j].tags;
      assert ns[j] in ns;
      FindUnique(root, ns[j]);
      FindSpec(root, k);
    }
  }

  // ---------------------------------------------------------------------------
  // The mediator keeps the nodes' own tags in step with its forward index

  /** Every node of the subtree has its tags, in order, as its forward entry. */
  predicate InSync(f: Forward, n: Node) {
    Fwd(f, n.id) == n.tags && (n.Dir? ==> InSyncIn(f, n.children))
  }

  predicate InSyncIn(f: Forward, cs: seq<Node>) {
    cs != [] ==> InSync(f, cs[0]) && InSyncIn(f, cs[1..])
  }

  /** `InSync` says of every node in the subtree that its forward entry is its tags. */
  lemma {:induction false} InSyncSpec(f: Forward, n: Node)
    ensures InSync(f, n) <==> forall x :: Contains(n, x) ==> Fwd(f, x.id) == x.tags
  {
    if n.Dir? {
      InSyncInSpec(f, n.children);
    }
  }

  lemma {:induction false} InSyncInSpec(f: Forward, cs: seq<Node>)
    ensures InSyncIn(f, cs) <==> forall x :: ContainsIn(cs, x) ==> Fwd(f, x.id) == x.tags
  {
    if cs != [] {
      InSyncSpec(f, cs[0]);
      InSyncInSpec(f, cs[1..]);
    }
  }

  /** A forward index that agrees on every id of the subtree keeps it in step. */
  lemma {:induction false} InSyncAgree(f: Forward, g: Forward, n: Node)
    requires InSync(f, n)
    requires forall k :: k in Ids(n) ==> Fwd(g, k) == Fwd(f, k)
    ensures InSync(g, n)
  {
    if n.Dir? {
      InSyncInAgree(f, g, n.children);
    }
  }

  lemma {:induction false} InSyncInAgree(f: Forward, g: Forward, cs: seq<Node>)
    requires InSyncIn(f, cs)
    requires forall k :: k in IdsOf(cs) ==> Fwd(g, k) == Fwd(f, k)
    ensures InSyncIn(g, cs)
  {
    if cs != [] {
      InSyncAgree(f, g, cs[0]);
      InSyncInAgree(f, g, cs[1..]);
    }
  }

  /** Replacing a node by one in step with the new index, which differs only at that id, keeps the tree in step. */
  lemma {:induction false} InSyncReplace(f: Forward, g: Forward, n: Node, id: NodeId, x: Node)
    requires InSync(f, n) && InSync(g, x)
    requires forall k :: k != id ==> Fwd(g, k) == Fwd(f, k)
    ensures InSync(g, ReplaceNode(n, id, x))
  {
    if n.id != id && n.Dir? {
      InSyncInReplace(f, g, n.children, id, x);
    }
  }

  lemma {:induction false} InSyncInReplace(f: Forward, g: Forward, cs: seq<Node>, id: NodeId, x: Node)
    requires InSyncIn(f, cs) && InSync(g, x)
    requires forall k :: k != id ==> Fwd(g, k) == Fwd(f, k)
    ensures InSyncIn(g, ReplaceIn(cs, id, x))
  {
    if cs != [] {
      InSyncReplace(f, g, cs[0], id, x);
      InSyncInReplace(f, g, cs[1..], id, x);
      assert ReplaceIn(cs, id, x)[1..] == ReplaceIn(cs[1..], id, x);
    }
  }

  /** A node of a tree with unique ids heads a subtree with unique ids. */
  lemma {:induction false} UniqueContained(n: Node, y: Node)
    requires UniqueIds(n) && Contains(n, y)
    ensures UniqueIds(y)
  {
    if n != y {
      UniqueInContained(n.children, y);
    }
  }

  lemma {:induction false} UniqueInContained(cs: seq<Node>, y: Node)
    requires UniqueSeq(cs) && ContainsIn(cs, y)
    ensures UniqueIds(y)
  {
    if Contains(cs[0], y) {
      UniqueContained(cs[0], y);
    } else {
      UniqueInContained(cs[1..], y);
    }
  }

  /**
   * A change of one node's tags, mirrored by a forward index that changes
   * only at that id to the same new tags, keeps a tree with unique ids in step.
   */
  lemma RetagKeepsSync(f: Forward, g: Forward, root: Node, id: NodeId, tags: TagSet)
    requires UniqueIds(root) && InSync(f, root)
    requires forall k :: k != id ==> Fwd(g, k) == Fwd(f, k)
    requires TagsAt(root, id).Some? ==> Fwd(g, id) == tags
    ensures InSync(g, WithTags(root, id, tags))
  {
    FindSpec(root, id);
    match Find(root, id)
    case Some(y) =>
      InSyncSpec(f, root);
      InSyncSpec(f, y);
      forall x | Contains(y, x) ensures Fwd(f, x.id) == x.tags {
        ContainsTransitive(root, y, x);
      }
      UniqueContained(root, y);
      if y.Dir? {
        forall k | k in IdsOf(y.children) ensures Fwd(g, k) == Fwd(f, k) {
        }
        InSyncInAgree(f, g, y.children);
      }
      InSyncReplace(f, g, root, id, y.(tags := tags));
    case None =>
      InSyncAgree(f, g, root);
  }

  /** `addTag` keeps every node's own tags equal to its forward entry. */
  lemma AddTagKeepsSync(ix: Index, root: Node, id: NodeId, t: TagType)
    requires UniqueIds(root) && InSync(ix.forward, root)
    ensures InSync(AddTagIndex(ix, id, t).forward, match TagsAt(root, id)
      case Some(tags) => WithTags(root, id, SetAdd(tags, t))
      case None => root)
  {
    var g := AddTagIndex(ix, id, t).forward;
    match TagsAt(root, id)
    case Some(tags) =>
      FindSpec(root, id);
      InSyncSpec(ix.forward, root);
      RetagKeepsSync(ix.forward, g, root, id, SetAdd(tags, t));
    case None =>
      FindSpec(root, id);
      InSyncAgree(ix.forward, g, root);
  }

  /** `removeTag` keeps every node's own tags equal to its forward entry. */
  lemma RemoveTagKeepsSync(ix: Index, root: Node, id: NodeId, t: TagType)
    requires UniqueIds(root) && InSync(ix.forward, root)
    ensures InSync(UnindexTag(ix, id, t).forward, match TagsAt(root, id)
      case Some(tags) => WithTags(root, id, SetDelete(tags, t))
      case None => root)
  {
    var g := UnindexTag(ix, id, t).forward;
    match TagsAt(root, id)
    case Some(tags) =>
      FindSpec(root, id);
      InSyncSpec(ix.forward, root);
      RetagKeepsSync(ix.forward, g, root, id, SetDelete(tags, t));
    case None =>
      FindSpec(root, id);
      InSyncAgree(ix.forward, g, root);
  }

  // ---------------------------------------------------------------------------
  // The mediator

  class TagMediator {
    var forward: Forward
    var reverse: Reverse
    var registry: set<NodeId>

    function State(): Index
      reads this
    {
      Index(forward, reverse, registry)
    }

    constructor()
      ensures State() == EmptyIndex && Valid(State())
    {
      forward := map[];
      reverse := map[];
      registry := {};
    }

    /** `addTag`: indexes the pair, registers the node and adds the tag to the node's own tags. */
    method AddTag(tree: Tree, id: NodeId, t: TagType)
      requires Valid(State())
      modifies this, tree
      ensures State() == AddTagIndex(old(State()), id, t) && Valid(State())
      ensures HasTag(id, t)
      ensures tree.root == (match TagsAt(old(tree.root), id)
        case Some(tags) => WithTags(old(tree.root), id, SetAdd(tags, t))
        case None => old(tree.root))
      ensures UniqueIds(old(tree.root)) && InSync(old(forward), old(tree.root)) ==> InSync(forward, tree.root)
    {
      if UniqueIds(tree.root) && InSync(forward, tree.root) {
        AddTagKeepsSync(State(), tree.root, id, t);
      }
      IndexTagValid(State().(registry := registry + {id}), id, t);
      forward := forward[id := SetAdd(Fwd(forward, id), t)];
      reverse := reverse[t := SetAdd(Rev(reverse, t), id)];
      registry := registry + {id};
      tree.AddTag(id, t);
    }

    /** `removeTag`: unindexes the pair and deletes the tag from the node's own tags; the registry keeps the node. */
    method RemoveTag(tree: Tree, id: NodeId, t: TagType)
      requires Valid(State())
      modifies this, tree
      ensures State() == UnindexTag(old(State()), id, t) && Valid(State())
      ensures !HasTag(id, t)
      ensures tree.root == (match TagsAt(old(tree.root), id)
        case Some(tags) => WithTags(old(tree.root), id, SetDelete(tags, t))
        case None => old(tree.root))
      ensures UniqueIds(old(tree.root)) && InSync(old(forward), old(tree.root)) ==> InSync(forward, tree.root)
    {
      if UniqueIds(tree.root) && InSync(forward, tree.root) {
        RemoveTagKeepsSync(State(), tree.root, id, t);
      }
      UnindexTagValid(State(), id, t);
      if id in forward {
        forward := forward[id := SetDelete(forward[id], t)];
      }
      if t in reverse {
        reverse := reverse[t := SetDelete(reverse[t], id)];
      }
      tree.DeleteTag(id, t);
    }

    /** `hasTag` */
    predicate HasTag(id: NodeId, t: TagType)
      reads this
    {
      Holds(forward, id, t)
    }

    /** `getLabelsForNode`: the pooled label of each tag of the node, in insertion order. */
    method LabelsForNode(id: NodeId, labels: LabelFactory) returns (ls: seq<Label>)
      requires labels.Valid()
      modifies labels
      ensures labels.Valid()
      ensures |ls| == |Fwd(forward, id)|
      ensures forall i :: 0 <= i < |ls| ==>
        ls[i].kind == Fwd(forward, id)[i] && ls[i].Intrinsic() && ls[i].kind in labels.pool && ls[i] == labels.pool[ls[i].kind]
      ensures forall t :: t in old(labels.pool) ==> t in labels.pool && labels.pool[t] == old(labels.pool)[t]
    {
      var types := Fwd(forward, id);
      ls := [];
      for i := 0 to |types|
        invariant labels.Valid() && |ls| == i
        invariant forall j :: 0 <= j < i ==>
          ls[j].kind == types[j] && ls[j].Intrinsic() && ls[j].kind in labels.pool && ls[j] == labels.pool[ls[j].kind]
        invariant forall t :: t in old(labels.pool) ==> t in labels.pool && labels.pool[t] == old(labels.pool)[t]
      {
        var l := labels.GetLabel(types[i]);
        ls := ls + [l];
      }
    }

    /** `getNodesByLabel`: the ids carrying the tag, in the order they got it, that are registered. */
    function NodesByLabel(t: TagType): (ids: seq<NodeId>)
      reads this
      ensures forall k :: k in ids <==> Lists(reverse, t, k) && k in registry
    {
      Filter(Rev(reverse, t), registry)
    }

    /** `getTagCounts`: the size of each tag's reverse set, 0 when it has none. */
    function TagCounts(): (counts: map<TagType, nat>)
      reads this
      ensures counts.Keys == {Urgent, Work, Personal}
      ensures forall t :: t in counts ==> counts[t] == |Rev(reverse, t)|
    {
      map t | t in {Urgent, Work, Personal} :: |Rev(reverse, t)|
    }

    /** `registerNode`: registers the node and indexes its current tags; the node is not changed. */
    method RegisterNode(n: Node)
      requires Valid(State())
      modifies this
      ensures State() == Register(old(State()), n.id, n.tags) && Valid(State())
    {
      RegisterValid(State(), n.id, n.tags);
      registry := registry + {n.id};
      ghost var start := State();
      for i := 0 to |n.tags|
        invariant State() == IndexTags(start, n.id, n.tags[..i])
      {
        IndexTagsStep(start, n.id, n.tags, i);
        forward := forward[n.id := SetAdd(Fwd(forward, n.id), n.tags[i])];
        reverse := reverse[n.tags[i] := SetAdd(Rev(reverse, n.tags[i]), n.id)];
      }
      assert n.tags[..|n.tags|] == n.tags;
    }

    /** `unregisterNode`: drops the node from every reverse set it is in, then its forward and registry entries. */
    method UnregisterNode(id: NodeId)
      requires Valid(State())
      modifies this
      ensures State() == Unregister(old(State()), id) && Valid(State())
    {
      UnregisterValid(State(), id);
      var types := Fwd(forward, id);
      for i := 0 to |types|
        invariant reverse == UnlistAll(old(reverse), id, types[..i])
        invariant forward == old(forward) && registry == old(registry)
      {
        assert types[..i + 1][..i] == types[..i];
        if types[i] in reverse {
          reverse := reverse[types[i] := SetDelete(reverse[types[i]], id)];
        }
      }
      assert types[..|types|] == types;
      forward := forward - {id};
      registry := registry - {id};
    }

    /** `syncFromTree`: clears the three indexes, then registers every node of the tree in pre-order. */
    method SyncFromTree(root: Node)
      modifies this
      ensures State() == RegisterAll(EmptyIndex, PreOrder(root)) && Valid(State())
    {
      forward := map[];
      reverse := map[];
      registry := {};
      WalkTree(root);
      RegisterAllValid(EmptyIndex, PreOrder(root));
    }

    /** `walkTree`: the node, then each child's subtree in order. */
    method WalkTree(n: Node)
      requires Valid(State())
      modifies this
      ensures State() == RegisterAll(old(State()), PreOrder(n)) && Valid(State())
      decreases n
    {
      ghost var start := State();
      RegisterNode(n);
      WalkStart(start, n);
      if n.Dir? {
        for i := 0 to |n.children|
          invariant State() == RegisterAll(start, [n] + PreOrderOf(n.children[..i])) && Valid(State())
        {
          WalkStep(start, n, i);
          WalkTree(n.children[i]);
        }
      }
    }
  }

  /** The elements of `s` that are in `keep`, in order. */
  function Filter(s: seq<NodeId>, keep: set<NodeId>): (r: seq<NodeId>)
    ensures forall k :: k in r <==> k in s && k in keep
    ensures |r| <= |s|
  {
    if s == [] then []
    else (if s[0] in keep then [s[0]] else []) + Filter(s[1..], keep)
  }

  lemma {:induction false} FilterAll(s: seq<NodeId>, keep: set<NodeId>)
    requires forall k :: k in s ==> k in keep
    ensures Filter(s, keep) == s
  {
    if s != [] {
      FilterAll(s[1..], keep);
    }
  }

  /** Since every indexed id is registered, each tag's count is the number of nodes `getNodesByLabel` returns. */
  lemma CountIsNodesByLabel(m: TagMediator, t: TagType)
    requires Valid(m.State())
    ensures m.NodesByLabel(t) == Rev(m.reverse, t)
    ensures m.TagCounts()[t] == |m.NodesByLabel(t)|
  {
    assert forall k :: k in Rev(m.reverse, t) ==> Lists(m.reverse, t, k);
    FilterAll(Rev(m.reverse, t), m.registry);
    EveryKind(t);
  }

  lemma EveryKind(t: TagType)
    ensures t in {Urgent, Work, Personal}
  {
    match t
    case Urgent =>
    case Work =>
    case Personal =>
  }

  lemma IndexTagsStep(ix: Index, id: NodeId, tags: seq<TagType>, i: nat)
    requires i < |tags|
    ensures IndexTags(ix, id, tags[..i + 1]) == IndexTag(IndexTags(ix, id, tags[..i]), id, tags[i])
  {
    assert tags[..i + 1][..i] == tags[..i];
  }

  lemma PreOrderOfStep(cs: seq<Node>, i: nat)
    requires i < |cs|
    ensures PreOrderOf(cs[..i + 1]) == PreOrderOf(cs[..i]) + PreOrder(cs[i])
  {
    assert cs[..i + 1] == cs[..i] + [cs[i]];
    PreOrderOfAppend(cs[..i], [cs[i]]);
    assert PreOrderOf([cs[i]]) == PreOrder(cs[i]) + PreOrderOf([]);
  }

  /** One more child's subtree, registered after the node and the children before it. */
  lemma WalkStep(ix: Index, n: Node, i: nat)
    requires n.Dir? && i < |n.children|
    ensures RegisterAll(ix, [n] + PreOrderOf(n.children[..i + 1]))
         == RegisterAll(RegisterAll(ix, [n] + PreOrderOf(n.children[..i])), PreOrder(n.children[i]))
  {
    var a := [n] + PreOrderOf(n.children[..i]);
    var b := PreOrder(n.children[i]);
    PreOrderOfStep(n.children, i);
    assert [n] + PreOrderOf(n.children[..i + 1]) == a + b;
    RegisterAllAppend(ix, a, b);
  }

  lemma WalkStart(ix: Index, n: Node)
    ensures RegisterAll(ix, [n]) == Register(ix, n.id, n.tags)
    ensures n.Dir? ==> [n] + PreOrderOf(n.children[..0]) == [n]
    ensures n.Dir? ==> [n] + PreOrderOf(n.children[..|n.children|]) == PreOrder(n)
    ensures !n.Dir? ==> PreOrder(n) == [n]
  {
    var none: seq<Node> := [];
    assert [n][..0] == none;
    if n.Dir? {
      assert n.children[..|n.children|] == n.children;
    }
  }
}
