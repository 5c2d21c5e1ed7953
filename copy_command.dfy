// `CopyCommand`: puts a deep copy of a node in the clipboard, first keeping a
// copy of what the clipboard held so that `undo` can put that back.
//
// The node is looked up in the tree by id when the command runs, so the copy
// reflects its state at that moment; a node no longer in the tree is copied
// as it was when the command was built.

module CopyCommands {
  import opened Common
  import opened Nodes
  import opened DocumentTree
  import opened NodeConstruction
  import opened Clipboards

  /** The text a copy command shows in the history. */
  function CopyDescription(name: string): string {
    "複製：" + name
  }

  /** The node in its current state, or as captured when it is no longer in the tree. */
  function Live(root: Node, node: Node): (r: Node)
    ensures r.id == node.id
  {
    match Find(root, node.id)
    case Some(x) =>
      FindSpec(root, node.id);
      x
    case None => node
  }

  /**
   * `execute; undo` on the clipboard: the content saved by `execute` is a
   * copy of the old content and `undo` puts back a copy of that, so the
   * clipboard ends with a copy of what it held, under the same name, or
   * empty if it was empty.
   */
  lemma CopyThenUndo(before: Option<Node>, saved: Option<Node>, after: Option<Node>)
    requires saved.Some? <==> before.Some?
    requires before.Some? ==> SameShape(before.value, saved.value)
    requires after.Some? <==> saved.Some?
    requires saved.Some? ==> SameShape(saved.value, after.value)
    ensures after.Some? <==> before.Some?
    ensures before.Some? ==> SameShape(before.value, after.value) && after.value.name == before.value.name
  {
    if before.Some? {
      SameShapeTrans(before.value, saved.value, after.value);
    }
  }

  class CopyCommand {
    const tree: Tree
    const node: Node
    const clipboard: Clipboard
    const ids: IdAllocator
    const description: string
    /** A copy of the clipboard's content before the last `execute`. */
    var previousContent: Option<Node>
    /** The clipboard's source name before the last `execute`; `undo` does not read it. */
    var previousSourceName: Option<string>

    constructor(tree: Tree, node: Node, clipboard: Clipboard, ids: IdAllocator)
      ensures this.tree == tree && this.node == node && this.clipboard == clipboard && this.ids == ids
      ensures description == CopyDescription(node.name)
      ensures previousContent == None && previousSourceName == None
    {
      this.tree := tree;
      this.node := node;
      this.clipboard := clipboard;
      this.ids := ids;
      description := CopyDescription(node.name);
      previousContent := None;
      previousSourceName := None;
    }

    /** Saves a copy of the old content and the old name, then copies the node. */
    method Execute()
      requires clipboard.Valid()
      modifies this, clipboard, ids
      ensures clipboard.Valid()
      ensures previousContent.Some? <==> old(clipboard.content).Some?
      ensures previousContent.Some? ==> SameShape(old(clipboard.content).value, previousContent.value)
      ensures previousSourceName == old(clipboard.sourceName)
      ensures clipboard.content.Some? && SameShape(Live(tree.root, node), clipboard.content.value)
      ensures clipboard.sourceName == Some(Live(tree.root, node).name)
    {
      if clipboard.HasContent() {
        previousContent := clipboard.Paste(ids);
      } else {
        previousContent := None;
      }
      previousSourceName := clipboard.sourceName;
      var _ := clipboard.Copy(Live(tree.root, node), ids);
    }

    /** Empties the clipboard, then copies the saved content back into it, if there was any. */
    method Undo()
      modifies clipboard, ids
      ensures clipboard.Valid()
      ensures previousContent.None? ==> clipboard.content == None && clipboard.sourceName == None
      ensures previousContent.Some? ==>
        clipboard.content.Some? && SameShape(previousContent.value, clipboard.content.value)
        && clipboard.sourceName == Some(previousContent.value.name)
    {
      clipboard.Clear();
      if previousContent.Some? {
        var _ := clipboard.Copy(previousContent.value, ids);
      }
    }
  }
}
