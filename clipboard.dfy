// The clipboard: a single slot holding a deep copy of a node and the name of
// the node it was copied from. The source's static `instance` is the
// `ClipboardHolder` object here.

module Clipboards {
  import opened Common
  import opened Nodes
  import opened DocumentTree
  import opened NodeConstruction

  class Clipboard {
    var content: Option<Node>
    var sourceName: Option<string>

    /** The slot and the name are empty together, and the name is the copy's. */
    ghost predicate Valid()
      reads this
    {
      (content.None? <==> sourceName.None?)
      && (content.Some? ==> sourceName.value == content.value.name)
    }

    constructor()
      ensures content == None && sourceName == None && Valid()
    {
      content := None;
      sourceName := None;
    }

    /** `copy(node)`: keeps a deep copy with fresh ids and the node's name, and returns the name. */
    method Copy(node: Node, ids: IdAllocator) returns (name: string)
      modifies this, ids
      ensures Valid()
      ensures content.Some? && SameShape(node, content.value) && UniqueIds(content.value)
      ensures content.value.id == old(ids.next) && IdsWithin(content.value, old(ids.next), ids.next)
      ensures sourceName == Some(node.name) && name == node.name
    {
      var copy := ids.Clone(node);
      content := Some(copy);
      sourceName := Some(node.name);
      name := node.name;
    }

    /** `paste()`: a new deep copy of the content on every call, leaving the content in place; None when empty. */
    method Paste(ids: IdAllocator) returns (r: Option<Node>)
      modifies ids
      ensures content.None? ==> r.None? && ids.next == old(ids.next)
      ensures content.Some? ==>
        r.Some? && SameShape(content.value, r.value) && UniqueIds(r.value)
        && r.value.id == old(ids.next) && IdsWithin(r.value, old(ids.next), ids.next)
    {
      if content.None? {
        return None;
      }
      var copy := ids.Clone(content.value);
      r := Some(copy);
    }

    /** `hasContent()` */
    predicate HasContent()
      reads this
    {
      content.Some?
    }

    /** `clear()` */
    method Clear()
      modifies this
      ensures content == None && sourceName == None && Valid()
    {
      content := None;
      sourceName := None;
    }
  }

  /** The class's static slot for its single instance. */
  class ClipboardHolder {
    var instance: Clipboard?

    constructor()
      ensures instance == null
    {
      instance := null;
    }

    /** `getInstance()`: the existing instance, or a new empty one on the first call. */
    method GetInstance() returns (c: Clipboard)
      modifies this
      ensures old(instance) != null ==> c == old(instance)
      ensures old(instance) == null ==> fresh(c) && c.content == None && c.sourceName == None && c.Valid()
      ensures instance == c
    {
      if instance == null {
        instance := new Clipboard();
      }
      c := instance;
    }

    /** `resetInstance()`: the next `getInstance` builds a new clipboard. */
    method ResetInstance()
      modifies this
      ensures instance == null
    {
      instance := null;
    }
  }

  /**
   * Two pastes in a row: the clipboard is not consumed, both give a copy of
   * its content, and the two copies share no id.
   */
  method PasteTwice(clipboard: Clipboard, ids: IdAllocator) returns (first: Option<Node>, second: Option<Node>)
    modifies ids
    ensures clipboard.content.None? ==> first.None? && second.None?
    ensures clipboard.content.Some? ==>
      first.Some? && second.Some?
      && SameShape(clipboard.content.value, first.value) && SameShape(clipboard.content.value, second.value)
      && first.value.id != second.value.id && Ids(first.value) !! Ids(second.value)
  {
    ghost var lo := ids.next;
    first := clipboard.Paste(ids);
    ghost var mid := ids.next;
    second := clipboard.Paste(ids);
    if clipboard.content.Some? {
      assert first.value.id in Ids(first.value) && second.value.id in Ids(second.value);
      assert IdsWithin(first.value, lo, mid) && IdsWithin(second.value, mid, ids.next);
    }
  }
}
