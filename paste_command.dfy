// `PasteCommand`: appends a fresh deep copy of the clipboard's content to a
// target directory, and removes exactly that node on undo. Pasting an empty
// clipboard is an error: `Execute` then answers `false` and changes nothing.

module PasteCommands {
  import opened Common
  import opened Nodes
  import opened DocumentTree
  import opened NodeConstruction
  import opened Clipboards

  /** The text a paste command shows, fixed when it is built: the copied node's name, or `(空)`. */
  function PasteDescription(source: Option<string>, targetName: string): string {
    "貼上：" + (if source.Some? then source.value else "(空)") + " → " + targetName
  }

  /** A node whose id is above every id of the tree is not a child of any directory in it. */
  lemma FreshNotChild(root: Node, dirId: NodeId, bound: nat, x: Node)
    requires IdsBelow(root, bound) && bound <= x.id && ChildrenAt(root, dirId).Some?
    ensures forall i :: 0 <= i < |ChildrenAt(root, dirId).value| ==> ChildrenAt(root, dirId).value[i].id != x.id
  {
    var d := Find(root, dirId).value;
    FindSpec(root, dirId);
    forall i | 0 <= i < |d.children| ensures d.children[i].id != x.id {
      ChildContained(d.children, d.children[i]);
      ContainsTransitive(root, d, d.children[i]);
      ContainsId(root, d.children[i]);
    }
  }

  /** Pasting a node with fresh ids and undoing the paste gives the original tree. */
  lemma PasteThenUndo(root: Node, targetId: NodeId, x: Node, bound: nat)
    requires UniqueIds(root) && IdsBelow(root, bound) && bound <= x.id
    requires ChildrenAt(root, targetId).Some?
    ensures var after := WithChildren(root, targetId, Add(ChildrenAt(root, targetId).value, x));
      ChildrenAt(after, targetId).Some?
      && WithChildren(after, targetId, Remove(ChildrenAt(after, targetId).value, x.id).0) == root
  {
    var kids := ChildrenAt(root, targetId).value;
    FreshNotChild(root, targetId, bound, x);
    ChildrenAfterWrite(root, targetId, Add(kids, x));
    AddThenRemove(kids, x);
    ChildrenWriteTwice(root, targetId, Add(kids, x), kids);
    ChildrenWriteSame(root, targetId);
  }

  class PasteCommand {
    const tree: Tree
    const targetId: NodeId
    const clipboard: Clipboard
    const ids: IdAllocator
    const description: string
    /** The node the last `execute` added, until `undo` removes it. */
    var pastedNode: Option<Node>

    constructor(tree: Tree, target: Node, clipboard: Clipboard, ids: IdAllocator)
      ensures this.tree == tree && targetId == target.id && this.clipboard == clipboard && this.ids == ids
      ensures description == PasteDescription(clipboard.sourceName, target.name)
      ensures pastedNode == None
    {
      this.tree := tree;
      targetId := target.id;
      this.clipboard := clipboard;
      this.ids := ids;
      description := PasteDescription(clipboard.sourceName, target.name);
      pastedNode := None;
    }

    /** `targetDir.add(clipboard.paste())`; `false` (the thrown error) on an empty clipboard. */
    method Execute() returns (ok: bool)
      modifies this, tree, ids
      ensures ok <==> clipboard.content.Some?
      ensures !ok ==> tree.root == old(tree.root) && pastedNode == old(pastedNode) && ids.next == old(ids.next)
      ensures ok ==>
        pastedNode.Some? && SameShape(clipboard.content.value, pastedNode.value) && UniqueIds(pastedNode.value)
        && IdsWithin(pastedNode.value, old(ids.next), ids.next)
        && tree.root == (match ChildrenAt(old(tree.root), targetId)
          case Some(kids) => WithChildren(old(tree.root), targetId, Add(kids, pastedNode.value))
          case None => old(tree.root))
    {
      var copy := clipboard.Paste(ids);
      if copy.None? {
        return false;
      }
      pastedNode := copy;
      tree.AddChild(targetId, copy.value);
      ok := true;
    }

    /** Removes the pasted node from the target and forgets it; nothing before `execute` or when repeated. */
    method Undo()
      modifies this, tree
      ensures pastedNode == None
      ensures old(pastedNode).None? ==> tree.root == old(tree.root)
      ensures old(pastedNode).Some? ==>
        tree.root == (match ChildrenAt(old(tree.root), targetId)
          case Some(kids) => WithChildren(old(tree.root), targetId, Remove(kids, old(pastedNode).value.id).0)
          case None => old(tree.root))
    {
      if pastedNode.Some? {
        var _ := tree.RemoveChild(targetId, pastedNode.value.id);
        pastedNode := None;
      }
    }
  }
}
