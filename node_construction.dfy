// Node construction and deep copy. The source keeps a module-level counter
// `nextNodeId`, starting at 1, that every node constructor reads and
// increments; it is the `IdAllocator` object here, passed to whatever
// builds nodes. The clock behind `new Date()` is a parameter `now`.

module NodeConstruction {
  import opened Common
  import opened Tags
  import opened Nodes
  import opened DocumentTree

  /**
   * `b` is a deep copy of `a`: the same kind, name, tags and fields, and
   * children that are copies of `a`'s, in the same order. Ids are not compared.
   */
  predicate SameShape(a: Node, b: Node) {
    match a
    case Dir(_, name, tags, children) =>
      b.Dir? && b.name == name && b.tags == tags && |b.children| == |children| &&
      forall i :: 0 <= i < |children| ==> SameShape(children[i], b.children[i])
    case Word(_, name, tags, sizeKB, createdAt, pages) =>
      b == Word(b.id, name, tags, sizeKB, createdAt, pages)
    case Image(_, name, tags, sizeKB, createdAt, width, height) =>
      b == Image(b.id, name, tags, sizeKB, createdAt, width, height)
    case Text(_, name, tags, sizeKB, createdAt, encoding) =>
      b == Text(b.id, name, tags, sizeKB, createdAt, encoding)
  }

  /** A copy has the same size and the same details as its original. */
  lemma {:induction false} SameShapeSize(a: Node, b: Node)
    requires SameShape(a, b)
    ensures SizeKB(a) == SizeKB(b)
    ensures Details(a) == Details(b) && Icon(a) == Icon(b) && TypeLabel(a) == TypeLabel(b)
  {
    if a.Dir? {
      SameShapeSizes(a.children, b.children);
    }
  }

  lemma {:induction false} SameShapeSizes(a: seq<Node>, b: seq<Node>)
    requires |a| == |b| && forall i :: 0 <= i < |a| ==> SameShape(a[i], b[i])
    ensures SumSizes(a) == SumSizes(b)
  {
    if a != [] {
      SameShapeSize(a[0], b[0]);
      SameShapeSizes(a[1..], b[1..]);
    }
  }

  /** A copy of a copy is a copy of the original, with its name. */
  lemma {:induction false} SameShapeTrans(a: Node, b: Node, c: Node)
    requires SameShape(a, b) && SameShape(b, c)
    ensures SameShape(a, c) && c.name == a.name
  {
    if a.Dir? {
      forall i | 0 <= i < |a.children| ensures SameShape(a.children[i], c.children[i]) {
        SameShapeTrans(a.children[i], b.children[i], c.children[i]);
      }
    }
  }

  /** All ids of the subtree lie in [lo, hi). */
  predicate IdsWithin(n: Node, lo: nat, hi: nat) {
    forall id :: id in Ids(n) ==> lo <= id < hi
  }

  /** The global id counter. */
  class IdAllocator {
    var next: nat

    /** `let nextNodeId = 1` */
    constructor()
      ensures next == 1
    {
      next := 1;
    }

    /** `this.id = nextNodeId++` */
    method Fresh() returns (id: NodeId)
      modifies this
      ensures id == old(next) && next == old(next) + 1
    {
      id := next;
      next := next + 1;
    }

    /** `new Directory(name)`: a fresh id, no tags, no children. */
    method NewDirectory(name: string) returns (d: Node)
      modifies this
      ensures d == Dir(old(next), name, [], []) && next == old(next) + 1
    {
      var id := Fresh();
      d := Dir(id, name, [], []);
    }

    /** `new WordFile(name, sizeKB, pages, createdAt)`; `createdAt ?? new Date()`. */
    method NewWordFile(name: string, sizeKB: real, pages: int, createdAt: Option<Date>, now: Date) returns (f: Node)
      modifies this
      ensures f == Word(old(next), name, [], sizeKB, if createdAt.Some? then createdAt.value else now, pages)
      ensures next == old(next) + 1
    {
      var id := Fresh();
      f := Word(id, name, [], sizeKB, if createdAt.Some? then createdAt.value else now, pages);
    }

    /** `new ImageFile(name, sizeKB, width, height)`: the creation time is always the current time. */
    method NewImageFile(name: string, sizeKB: real, width: int, height: int, now: Date) returns (f: Node)
      modifies this
      ensures f == Image(old(next), name, [], sizeKB, now, width, height) && next == old(next) + 1
    {
      var id := Fresh();
      f := Image(id, name, [], sizeKB, now, width, height);
    }

    /** `new TextFile(name, sizeKB, encoding)`: the creation time is always the current time. */
    method NewTextFile(name: string, sizeKB: real, encoding: string, now: Date) returns (f: Node)
      modifies this
      ensures f == Text(old(next), name, [], sizeKB, now, encoding) && next == old(next) + 1
    {
      var id := Fresh();
      f := Text(id, name, [], sizeKB, now, encoding);
    }

    /**
     * `clone()`: a deep copy in which every node has a fresh id. The copy's
     * root takes the first new id, then its descendants in pre-order.
     */
    method Clone(n: Node) returns (c: Node)
      modifies this
      decreases n
      ensures SameShape(n, c)
      ensures c.id == old(next) && old(next) < next
      ensures IdsWithin(c, old(next), next)
      ensures UniqueIds(c)
    {
      match n {
        case Dir(_, name, tags, children) =>
          var copy := NewDirectory(name);
          var copyTags := CopyTags(tags);
          var kids: seq<Node> := [];
          for i := 0 to |children|
            invariant |kids| == i && copy.id < next
            invariant forall j :: 0 <= j < i ==> SameShape(children[j], kids[j])
            invariant forall id :: id in IdsOf(kids) ==> copy.id < id < next
            invariant UniqueSeq(kids)
          {
            var k := Clone(children[i]);
            UniqueSeqAppend(kids, k);
            kids := kids + [k];
          }
          c := Dir(copy.id, name, copyTags, kids);
        case Word(_, name, tags, sizeKB, createdAt, pages) =>
          var copy := NewWordFile(name, sizeKB, pages, Some(createdAt), createdAt);
          var copyTags := CopyTags(tags);
          c := Word(copy.id, name, copyTags, sizeKB, createdAt, pages);
        case Image(_, name, tags, sizeKB, createdAt, width, height) =>
          var copy := NewImageFile(name, sizeKB, width, height, createdAt);
          var copyTags := CopyTags(tags);
          c := Image(copy.id, name, copyTags, sizeKB, createdAt, width, height);
        case Text(_, name, tags, sizeKB, createdAt, encoding) =>
          var copy := NewTextFile(name, sizeKB, encoding, createdAt);
          var copyTags := CopyTags(tags);
          c := Text(copy.id, name, copyTags, sizeKB, createdAt, encoding);
      }
    }
  }

  /** `for (const tag of this.tags) copy.tags.add(tag)` into an empty set: the same tags in the same order. */
  method CopyTags(tags: TagSet) returns (copy: TagSet)
    ensures copy == tags
  {
    copy := [];
    for i := 0 to |tags|
      invariant copy == tags[..i]
    {
      assert tags[i] !in tags[..i];
      copy := SetAdd(copy, tags[i]);
      assert tags[..i + 1] == tags[..i] + [tags[i]];
    }
  }
}
