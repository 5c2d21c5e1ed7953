// `DeleteCommand`: removes a node from its parent directory, remembering the
// index `remove` returned, and puts it back at that index on undo.
//
// The node is taken from the parent when `execute` removes it, in the state
// it has at that moment; it is detached until `undo`, so nothing can change
// it in between.

module DeleteCommands {
  import opened Common
  import opened Nodes
  import opened DocumentTree

  /** The text a delete command shows in the history. */
  function DeleteDescription(name: string): string {
    "刪除：" + name
  }

  /** Removing a child and inserting it back where it was gives the original tree. */
  lemma DeleteThenUndo(root: Node, parentId: NodeId, id: NodeId)
    requires UniqueIds(root) && ChildrenAt(root, parentId).Some?
    requires IndexOf(ChildrenAt(root, parentId).value, id) != -1
    ensures var kids := ChildrenAt(root, parentId).value;
      var k := IndexOf(kids, id);
      var after := WithChildren(root, parentId, Remove(kids, id).0);
      ChildrenAt(after, parentId).Some?
      && WithChildren(after, parentId, InsertAt(ChildrenAt(after, parentId).value, kids[k], k)) == root
  {
    var kids := ChildrenAt(root, parentId).value;
    var k := IndexOf(kids, id);
    var rest := Remove(kids, id).0;
    ChildrenAfterWrite(root, parentId, rest);
    RemoveThenInsert(kids, id);
    ChildrenWriteTwice(root, parentId, rest, kids);
    ChildrenWriteSame(root, parentId);
  }

  /** Deleting a node that is not a child of the parent leaves the tree as it is. */
  lemma DeleteAbsent(root: Node, parentId: NodeId, id: NodeId)
    requires UniqueIds(root) && ChildrenAt(root, parentId).Some?
    requires IndexOf(ChildrenAt(root, parentId).value, id) == -1
    ensures WithChildren(root, parentId, Remove(ChildrenAt(root, parentId).value, id).0) == root
  {
    ChildrenWriteSame(root, parentId);
  }

  class DeleteCommand {
    const tree: Tree
    /** The node to delete, and the directory it is deleted from. */
    const nodeId: NodeId
    const parentId: NodeId
    const description: string
    /** The node as it was when last removed. */
    var node: Node
    /** `removedIndex`: where the node was, or -1. */
    var removedIndex: int

    constructor(tree: Tree, node: Node, parentId: NodeId)
      ensures this.tree == tree && this.node == node && nodeId == node.id && this.parentId == parentId
      ensures description == DeleteDescription(node.name) && removedIndex == -1
    {
      this.tree := tree;
      this.node := node;
      nodeId := node.id;
      this.parentId := parentId;
      description := DeleteDescription(node.name);
      removedIndex := -1;
    }

    /** `parent.remove(node)`, keeping the index it returns. */
    method Execute()
      modifies this, tree
      ensures ChildrenAt(old(tree.root), parentId).Some? ==>
        var kids := ChildrenAt(old(tree.root), parentId).value;
        removedIndex == IndexOf(kids, nodeId)
        && tree.root == WithChildren(old(tree.root), parentId, Remove(kids, nodeId).0)
        && (removedIndex != -1 ==> node == kids[removedIndex])
      ensures ChildrenAt(old(tree.root), parentId).None? ==> removedIndex == -1 && tree.root == old(tree.root)
      ensures removedIndex == -1 ==> node == old(node)
    {
      var kids := ChildrenAt(tree.root, parentId);
      if kids.Some? && IndexOf(kids.value, nodeId) != -1 {
        node := kids.value[IndexOf(kids.value, nodeId)];
      }
      removedIndex := tree.RemoveChild(parentId, nodeId);
    }

    /** Puts the node back at the recorded index; nothing when `execute` found no node. */
    method Undo()
      modifies tree
      ensures removedIndex != -1 && ChildrenAt(old(tree.root), parentId).Some? ==>
        tree.root == WithChildren(old(tree.root), parentId,
          InsertAt(ChildrenAt(old(tree.root), parentId).value, node, removedIndex))
      ensures removedIndex == -1 || ChildrenAt(old(tree.root), parentId).None? ==> tree.root == old(tree.root)
    {
      if removedIndex != -1 {
        tree.InsertChild(parentId, node, removedIndex);
      }
    }
  }
}
