// The file-manager facade: the one entry point the views call. It picks the
// sort strategy, looks up a node's parent, decides between adding and
// removing a tag, refuses to delete the root or to paste from an empty
// clipboard, and sends every change through the command history. The
// injected services and the clipboard and label singletons are explicit
// objects here; the document is the `Tree` whose root is passed in.

module Facades {
  import opened Common
  import opened Strings
  import opened Tags
  import opened Nodes
  import opened DocumentTree
  import opened NodeConstruction
  import opened SortStrategies
  import opened SortCommands
  import opened RestoreSortCommands
  import opened DeleteCommands
  import opened TagMediators
  import opened TagCommands
  import opened LabelFlyweight
  import opened Clipboards
  import opened CopyCommands
  import opened PasteCommands
  import opened CommandHistories
  import opened HistoryStacks
  import opened SearchEvents
  import opened ExtensionSearch
  import opened ViewStates
  import opened FileSystemServices

  // ---------------------------------------------------------------------------
  // findParent

  /** The ids strictly below `n`. */
  function Below(n: Node): set<NodeId> {
    if n.Dir? then IdsOf(n.children) else {}
  }

  /**
   * `findParent`: the first directory, in pre-order, among whose children a
   * node with the id occurs; `None` when the id is not strictly below `dir`.
   */
  function FindParent(dir: Node, id: NodeId): Option<Node>
    decreases dir
  {
    if dir.Dir? then FindParentIn(dir, dir.children, id) else None
  }

  /** The `for` over the remaining children `cs` of `dir`. */
  function FindParentIn(dir: Node, cs: seq<Node>, id: NodeId): Option<Node>
    decreases cs
  {
    if cs == [] then None
    else if cs[0].id == id then Some(dir)
    else
      var found := FindParent(cs[0], id);
      if found.Some? then found else FindParentIn(dir, cs[1..], id)
  }

  /**
   * A parent is found exactly when the id lies strictly below `dir`; what is
   * found is a directory inside `dir` with a child of that id.
   */
  lemma {:induction false} FindParentSpec(dir: Node, id: NodeId)
    ensures FindParent(dir, id).None? <==> id !in Below(dir)
    ensures FindParent(dir, id).Some? ==>
      var p := FindParent(dir, id).value;
      p.Dir? && DocumentTree.Contains(dir, p) && IndexOf(p.children, id) != -1
    decreases dir, 1
  {
    if dir.Dir? {
      FindParentInSpec(dir, dir.children, id);
    }
  }

  lemma {:induction false} FindParentInSpec(dir: Node, cs: seq<Node>, id: NodeId)
    requires dir.Dir? && forall x :: x in cs ==> x in dir.children
    ensures FindParentIn(dir, cs, id).None? <==> id !in IdsOf(cs)
    ensures FindParentIn(dir, cs, id).Some? ==>
      var p := FindParentIn(dir, cs, id).value;
      p.Dir? && DocumentTree.Contains(dir, p) && IndexOf(p.children, id) != -1
    decreases cs
  {
    if cs != [] {
      var child := cs[0];
      if child.id == id {
        assert child in dir.children;
      } else {
        FindParentSpec(child, id);
        FindParentInSpec(dir, cs[1..], id);
        var found := FindParent(child, id);
        if found.Some? {
          ChildContained(dir.children, child);
          ContainsTransitive(dir, child, found.value);
        }
      }
    }
  }

  /**
   * In a tree with unique ids the parent found is the tree's own node with
   * that id, so its children are what the tree holds under that id.
   */
  lemma ParentInTree(root: Node, id: NodeId)
    requires UniqueIds(root) && FindParent(root, id).Some?
    ensures var p := FindParent(root, id).value;
      p.Dir? && ChildrenAt(root, p.id) == Some(p.children)
  {
    FindParentSpec(root, id);
    FindUnique(root, FindParent(root, id).value);
  }

  // ---------------------------------------------------------------------------
  // createStrategy

  /** `createStrategy`: the strategy of that kind and direction, whose name tells the direction. */
  function CreateStrategy(kind: SortKind, ascending: bool): (s: SortStrategy)
    ensures s.kind == kind && s.ascending == ascending
    ensures EndsWith(SortDescription(s), if ascending then "升冪 ↑" else "降冪 ↓")
  {
    var s := SortStrategy(kind, ascending);
    var suffix := if ascending then "升冪 ↑" else "降冪 ↓";
    var name := StrategyName(s);
    assert ("排序：" + name)[|"排序：" + name| - |suffix|..] == name[|name| - |suffix|..];
    s
  }

  // ---------------------------------------------------------------------------
  // The facade object

  class FileManagerFacade {
    const fileSystem: FileSystemService
    const commandHistory: CommandHistory
    const viewState: ViewStateService
    const tagMediator: TagMediator
    /** The clipboard singleton's instance. */
    const clipboard: Clipboard
    /** The id counter new copies draw from. */
    const ids: IdAllocator
    /** The label flyweight pool. */
    const labels: LabelFactory

    ghost predicate Valid()
      reads this, tagMediator, clipboard, labels, viewState
    {
      TagMediators.Valid(tagMediator.State()) && clipboard.Valid() && labels.Valid() && viewState.Valid()
    }

    constructor(fileSystem: FileSystemService, commandHistory: CommandHistory, viewState: ViewStateService,
                clipboard: Clipboard, ids: IdAllocator, labels: LabelFactory)
      requires clipboard.Valid() && labels.Valid() && viewState.Valid()
      ensures this.fileSystem == fileSystem && this.commandHistory == commandHistory && this.viewState == viewState
      ensures this.clipboard == clipboard && this.ids == ids && this.labels == labels
      ensures fresh(tagMediator) && tagMediator.State() == EmptyIndex && Valid()
    {
      this.fileSystem := fileSystem;
      this.commandHistory := commandHistory;
      this.viewState := viewState;
      this.clipboard := clipboard;
      this.ids := ids;
      this.labels := labels;
      tagMediator := new TagMediator();
    }

    /**
     * `sort`: one new sort command with the chosen strategy runs and is
     * pushed on the history; the tree is sorted by that strategy.
     */
    method Sort(tree: Tree, kind: SortKind, ascending: bool) returns (description: string)
      modifies commandHistory, tree
      ensures description == SortDescription(CreateStrategy(kind, ascending))
      ensures tree.root == SortTree(CreateStrategy(kind, ascending), old(tree.root))
      ensures |commandHistory.undoStack| == |old(commandHistory.undoStack)| + 1
      ensures var c := commandHistory.undoStack[|old(commandHistory.undoStack)|];
        c.SortCmd? && fresh(c.sort) && c.sort.tree == tree && c.sort.strategy == CreateStrategy(kind, ascending) &&
        commandHistory.State() == Executed(old(commandHistory.State()), c)
    {
      var strategy := CreateStrategy(kind, ascending);
      var command := new SortCommand(tree, strategy);
      var _ := commandHistory.ExecuteCommand(SortCmd(command));
      description := command.description;
    }

    /**
     * `restoreSort`: a restore command built from the sort command's saved
     * orders runs and is pushed; the tree gets those orders back.
     */
    method RestoreSort(tree: Tree, lastSort: SortCommand) returns (description: string)
      modifies commandHistory, tree
      ensures description == RestoreDescription(lastSort.description)
      ensures tree.root == RestoreAll(old(tree.root), lastSort.previousOrders)
      ensures |commandHistory.undoStack| == |old(commandHistory.undoStack)| + 1
      ensures var c := commandHistory.undoStack[|old(commandHistory.undoStack)|];
        c.RestoreSortCmd? && fresh(c.restore) && c.restore.originalOrders == lastSort.previousOrders &&
        commandHistory.State() == Executed(old(commandHistory.State()), c)
    {
      var command := new RestoreSortCommand(tree, lastSort.previousOrders, lastSort.description);
      var _ := commandHistory.ExecuteCommand(RestoreSortCmd(command));
      description := command.description;
    }

    /**
     * `deleteNode`: `None`, with nothing recorded, when the node has no
     * parent in the tree (the root, or a node not in it); otherwise one
     * delete command runs and is pushed, and in a tree with unique ids the
     * node leaves its parent's children.
     */
    method DeleteNode(tree: Tree, node: Node) returns (r: Option<string>)
      modifies commandHistory, tree
      ensures r.None? <==> FindParent(old(tree.root), node.id).None?
      ensures r.None? ==> tree.root == old(tree.root) && commandHistory.State() == old(commandHistory.State())
      ensures r.Some? ==>
        var parent := FindParent(old(tree.root), node.id).value;
        r.value == DeleteDescription(node.name) &&
        |commandHistory.undoStack| == |old(commandHistory.undoStack)| + 1 &&
        var c := commandHistory.undoStack[|old(commandHistory.undoStack)|];
        c.DeleteCmd? && fresh(c.delete) && c.delete.parentId == parent.id && c.delete.nodeId == node.id &&
        commandHistory.State() == Executed(old(commandHistory.State()), c) &&
        parent.Dir? &&
        (UniqueIds(old(tree.root)) ==>
          tree.root == WithChildren(old(tree.root), parent.id, Remove(parent.children, node.id).0))
    {
      var parent := FindParent(tree.root, node.id);
      if parent.None? {
        return None;
      }
      FindParentSpec(tree.root, node.id);
      if UniqueIds(tree.root) {
        ParentInTree(tree.root, node.id);
      }
      var command := new DeleteCommand(tree, node, parent.value.id);
      var _ := commandHistory.ExecuteCommand(DeleteCmd(command));
      r := Some(command.description);
    }

    /**
     * `toggleTag`: removes the tag when the mediator says the node has it,
     * adds it otherwise, through one tag command pushed on the history.
     */
    method ToggleTag(tree: Tree, node: Node, tag: TagType) returns (description: string)
      requires Valid()
      modifies commandHistory, tree, tagMediator, labels
      ensures Valid()
      ensures var add := !old(tagMediator.HasTag(node.id, tag));
        description == TagDescription(if add then AddAction else RemoveAction, node.name, tag) &&
        tree.root == TagEdit(old(tree.root), node.id, tag, add) &&
        tagMediator.State() == IndexEdit(old(tagMediator.State()), node.id, tag, add)
      ensures |commandHistory.undoStack| == |old(commandHistory.undoStack)| + 1
      ensures var c := commandHistory.undoStack[|old(commandHistory.undoStack)|];
        c.TagCmd? && fresh(c.tagging) && c.tagging.mediator == tagMediator &&
        commandHistory.State() == Executed(old(commandHistory.State()), c)
    {
      var action := if tagMediator.HasTag(node.id, tag) then RemoveAction else AddAction;
      var command := new TagCommand(tree, node, tag, action, tagMediator, labels);
      var _ := commandHistory.ExecuteCommand(TagCmd(command));
      description := command.description;
    }

    /** `syncTagMediator`: the mediator's indexes are rebuilt from the whole tree. */
    method SyncTagMediator(root: Node)
      requires Valid()
      modifies tagMediator
      ensures Valid()
      ensures tagMediator.State() == RegisterAll(EmptyIndex, PreOrder(root))
    {
      tagMediator.SyncFromTree(root);
    }

    /** `copyNode`: one copy command runs and is pushed; the clipboard then holds a copy of the node. */
    method CopyNode(tree: Tree, node: Node) returns (description: string)
      requires Valid()
      modifies commandHistory, clipboard, ids
      ensures Valid()
      ensures description == CopyDescription(node.name)
      ensures clipboard.content.Some? && SameShape(Live(tree.root, node), clipboard.content.value)
      ensures |commandHistory.undoStack| == |old(commandHistory.undoStack)| + 1
      ensures var c := commandHistory.undoStack[|old(commandHistory.undoStack)|];
        c.CopyCmd? && fresh(c.copy) && commandHistory.State() == Executed(old(commandHistory.State()), c)
    {
      var command := new CopyCommand(tree, node, clipboard, ids);
      var _ := commandHistory.ExecuteCommand(CopyCmd(command));
      description := command.description;
    }

    /**
     * `pasteNode`: `None`, with nothing recorded, when the clipboard is
     * empty; otherwise one paste command runs and is pushed, and a copy of
     * the clipboard's node is added under the target directory.
     */
    method PasteNode(tree: Tree, target: Node) returns (r: Option<string>)
      requires Valid()
      modifies commandHistory, tree, ids
      ensures Valid()
      ensures r.None? <==> old(clipboard.content).None?
      ensures r.None? ==> tree.root == old(tree.root) && commandHistory.State() == old(commandHistory.State())
      ensures r.Some? ==>
        r.value == PasteDescription(clipboard.sourceName, target.name) &&
        |commandHistory.undoStack| == |old(commandHistory.undoStack)| + 1 &&
        var c := commandHistory.undoStack[|old(commandHistory.undoStack)|];
        c.PasteCmd? && fresh(c.paste) && c.paste.pastedNode.Some? &&
        commandHistory.State() == Executed(old(commandHistory.State()), c) &&
        tree.root == (match ChildrenAt(old(tree.root), target.id)
          case Some(kids) => WithChildren(old(tree.root), target.id, Add(kids, c.paste.pastedNode.value))
          case None => old(tree.root))
    {
      if !clipboard.HasContent() {
        return None;
      }
      var command := new PasteCommand(tree, target, clipboard, ids);
      var ok := commandHistory.ExecuteCommand(PasteCmd(command));
      r := Some(command.description);
    }

    /**
     * `searchByExtension`: clears the highlights of the searched subtree,
     * then runs the service's search, whose events reach the subject.
     */
    method SearchByExtension(root: Node, extension: string) returns (results: seq<string>)
      requires Valid()
      modifies viewState, fileSystem.searchSubject
      ensures Valid()
      ensures viewState.highlightStates == old(viewState.highlightStates) - Ids(root)
      ensures results == SearchResults(extension, root)
      ensures fileSystem.searchSubject.events == old(fileSystem.searchSubject.events) + SearchStream(extension, root)
    {
      viewState.ResetTree(root);
      results := fileSystem.SearchByExtension(root, extension);
    }
  }
}
