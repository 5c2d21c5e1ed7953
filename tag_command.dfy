// `TagCommand`: adds or removes one tag on one node, through the tag mediator
// when one is given and directly on the node's tags otherwise; `undo` does
// the opposite change.

module TagCommands {
  import opened Common
  import opened Tags
  import opened Nodes
  import opened DocumentTree
  import opened LabelFlyweight
  import opened TagMediators

  datatype TagAction = AddAction | RemoveAction

  function ActionLabel(a: TagAction): string {
    if a == AddAction then "新增" else "移除"
  }

  /** The text a tag command shows: the action, the node, and the tag's label icon and name. */
  function TagDescription(a: TagAction, nodeName: string, t: TagType): string {
    ActionLabel(a) + "標籤：" + nodeName + " → " + LabelIcon(t) + " " + DisplayName(t)
  }

  /** `node.tags.add(t)` (`add`) or `node.tags.delete(t)` on the node with this id; no change when there is none. */
  function TagEdit(root: Node, id: NodeId, t: TagType, add: bool): Node {
    match TagsAt(root, id)
    case Some(tags) => WithTags(root, id, if add then SetAdd(tags, t) else SetDelete(tags, t))
    case None => root
  }

  /** The mediator's half of the same change. */
  function IndexEdit(ix: Index, id: NodeId, t: TagType, add: bool): Index {
    if add then AddTagIndex(ix, id, t) else UnindexTag(ix, id, t)
  }

  /** Adding a tag the node did not have and then removing it gives the original tree. */
  lemma AddThenUndo(root: Node, id: NodeId, t: TagType)
    requires UniqueIds(root) && TagsAt(root, id).Some? && t !in TagsAt(root, id).value
    ensures TagEdit(TagEdit(root, id, t, true), id, t, false) == root
  {
    var tags := TagsAt(root, id).value;
    var x := Find(root, id).value;
    FindSpec(root, id);
    FindAfterReplace(root, id, x.(tags := SetAdd(tags, t)));
    TagsWriteTwice(root, id, SetAdd(tags, t), SetDelete(SetAdd(tags, t), t));
    AddThenDelete(tags, t);
    TagsWriteSame(root, id);
  }

  /**
   * Removing a tag the node had and then adding it back gives the node the
   * same tags, with the re-added tag now last in insertion order.
   */
  lemma RemoveThenUndo(root: Node, id: NodeId, t: TagType)
    requires UniqueIds(root) && TagsAt(root, id).Some? && t in TagsAt(root, id).value
    ensures var tags := TagsAt(root, id).value;
      TagEdit(TagEdit(root, id, t, false), id, t, true) == WithTags(root, id, SetDelete(tags, t) + [t])
    ensures var tags := TagsAt(root, id).value;
      forall u :: u in SetDelete(tags, t) + [t] <==> u in tags
  {
    var tags := TagsAt(root, id).value;
    var x := Find(root, id).value;
    FindSpec(root, id);
    FindAfterReplace(root, id, x.(tags := SetDelete(tags, t)));
    TagsWriteTwice(root, id, SetDelete(tags, t), SetAdd(SetDelete(tags, t), t));
  }

  /** Through the mediator, adding a pair that was not indexed and removing it leaves every node's and every tag's set as before. */
  lemma IndexAddThenUndo(ix: Index, id: NodeId, t: TagType)
    requires Valid(ix) && !Holds(ix.forward, id, t)
    ensures var ix' := IndexEdit(IndexEdit(ix, id, t, true), id, t, false);
      Valid(ix')
      && (forall k :: Fwd(ix'.forward, k) == Fwd(ix.forward, k))
      && (forall u :: Rev(ix'.reverse, u) == Rev(ix.reverse, u))
  {
    var mid := AddTagIndex(ix, id, t);
    IndexTagValid(ix.(registry := ix.registry + {id}), id, t);
    UnindexTagValid(mid, id, t);
    assert !Lists(ix.reverse, t, id);
    AddThenDelete(Fwd(ix.forward, id), t);
    AddThenDelete(Rev(ix.reverse, t), id);
  }

  /** Through the mediator, removing an indexed pair and adding it back leaves the pair indexed and every other pair as before. */
  lemma IndexRemoveThenUndo(ix: Index, id: NodeId, t: TagType)
    requires Valid(ix) && Holds(ix.forward, id, t)
    ensures var ix' := IndexEdit(IndexEdit(ix, id, t, false), id, t, true);
      Valid(ix')
      && (forall k, u :: Holds(ix'.forward, k, u) <==> Holds(ix.forward, k, u))
      && (forall u, k :: Lists(ix'.reverse, u, k) <==> Lists(ix.reverse, u, k))
  {
    var mid := UnindexTag(ix, id, t);
    UnindexTagValid(ix, id, t);
    IndexTagValid(mid.(registry := mid.registry + {id}), id, t);
  }

  class TagCommand {
    const tree: Tree
    const nodeId: NodeId
    const tag: TagType
    const action: TagAction
    /** The mediator every change goes through, when there is one. */
    const mediator: TagMediator?
    const description: string

    /** Builds the description from the tag's pooled label. */
    constructor(tree: Tree, node: Node, tag: TagType, action: TagAction, mediator: TagMediator?, labels: LabelFactory)
      requires labels.Valid()
      modifies labels
      ensures labels.Valid() && tag in labels.pool
      ensures this.tree == tree && nodeId == node.id && this.tag == tag && this.action == action && this.mediator == mediator
      ensures description == TagDescription(action, node.name, tag)
    {
      var pooled := labels.GetLabel(tag);
      this.tree := tree;
      nodeId := node.id;
      this.tag := tag;
      this.action := action;
      this.mediator := mediator;
      description := ActionLabel(action) + "標籤：" + node.name + " → " + pooled.icon + " " + pooled.displayName;
    }

    /** Adds (`add`) or removes the tag, through the mediator when there is one. */
    method Change(add: bool)
      requires mediator != null ==> Valid(mediator.State())
      modifies tree, mediator
      ensures tree.root == TagEdit(old(tree.root), nodeId, tag, add)
      ensures mediator != null ==> mediator.State() == IndexEdit(old(mediator.State()), nodeId, tag, add) && Valid(mediator.State())
    {
      if mediator != null {
        if add {
          mediator.AddTag(tree, nodeId, tag);
        } else {
          mediator.RemoveTag(tree, nodeId, tag);
        }
      } else if add {
        tree.AddTag(nodeId, tag);
      } else {
        tree.DeleteTag(nodeId, tag);
      }
    }

    method Execute()
      requires mediator != null ==> Valid(mediator.State())
      modifies tree, mediator
      ensures tree.root == TagEdit(old(tree.root), nodeId, tag, action == AddAction)
      ensures mediator != null ==>
        mediator.State() == IndexEdit(old(mediator.State()), nodeId, tag, action == AddAction) && Valid(mediator.State())
    {
      Change(action == AddAction);
    }

    method Undo()
      requires mediator != null ==> Valid(mediator.State())
      modifies tree, mediator
      ensures tree.root == TagEdit(old(tree.root), nodeId, tag, action != AddAction)
      ensures mediator != null ==>
        mediator.State() == IndexEdit(old(mediator.State()), nodeId, tag, action != AddAction) && Valid(mediator.State())
    {
      Change(action != AddAction);
    }
  }
}
