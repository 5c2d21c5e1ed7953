// `CommandHistory`, the invoker: an undo stack of executed commands and a
// redo stack of undone ones. The six command kinds are gathered in one
// datatype, and the history dispatches `execute`/`undo` on it.

module CommandHistories {
  import opened Common
  import opened Nodes
  import opened DocumentTree
  import opened NodeConstruction
  import opened TagMediators
  import opened Clipboards
  import opened SortCommands
  import opened RestoreSortCommands
  import opened DeleteCommands
  import opened TagCommands
  import opened CopyCommands
  import opened PasteCommands
  import opened HistoryStacks

  datatype Command =
    | SortCmd(sort: SortCommand)
    | RestoreSortCmd(restore: RestoreSortCommand)
    | DeleteCmd(delete: DeleteCommand)
    | TagCmd(tagging: TagCommand)
    | CopyCmd(copy: CopyCommand)
    | PasteCmd(paste: PasteCommand)

  function Description(c: Command): string {
    match c
    case SortCmd(s) => s.description
    case RestoreSortCmd(r) => r.description
    case DeleteCmd(d) => d.description
    case TagCmd(t) => t.description
    case CopyCmd(k) => k.description
    case PasteCmd(p) => p.description
  }

  /** Everything `execute` or `undo` of the command may change. */
  function Footprint(c: Command): set<object> {
    match c
    case SortCmd(s) => {s, s.tree}
    case RestoreSortCmd(r) => {r, r.tree}
    case DeleteCmd(d) => {d, d.tree}
    case TagCmd(t) => {t.tree} + (if t.mediator != null then {t.mediator} else {})
    case CopyCmd(k) => {k, k.clipboard, k.ids}
    case PasteCmd(p) => {p, p.tree, p.ids}
  }

  /** What the command's own `execute` and `undo` rely on: a consistent mediator or clipboard. */
  ghost predicate Ready(c: Command)
    reads Footprint(c)
  {
    match c
    case TagCmd(t) => t.mediator != null ==> Valid(t.mediator.State())
    case CopyCmd(k) => k.clipboard.Valid()
    case _ => true
  }

  /** What the state holders of a command are, beyond its own footprint: where its result can be read. */
  function Observed(c: Command): set<object> {
    match c
    case CopyCmd(k) => {k.tree}
    case PasteCmd(p) => {p.clipboard}
    case _ => {}
  }

  /**
   * The effect of `execute` on the command's state, from the state before to
   * the state after: `ok` is false only for a paste from an empty clipboard.
   */
  twostate predicate Ran(c: Command, ok: bool)
    reads Footprint(c), Observed(c)
  {
    && (!c.PasteCmd? ==> ok)
    && (c.PasteCmd? ==> (ok <==> c.paste.clipboard.content.Some?))
    && (c.SortCmd? ==> c.sort.tree.root == SortTree(c.sort.strategy, old(c.sort.tree.root)))
    && (c.RestoreSortCmd? ==>
      c.restore.tree.root == RestoreAll(old(c.restore.tree.root), c.restore.originalOrders))
    && (c.TagCmd? ==>
      c.tagging.tree.root == TagEdit(old(c.tagging.tree.root), c.tagging.nodeId, c.tagging.tag, c.tagging.action == AddAction))
    && (c.TagCmd? && c.tagging.mediator != null ==>
      c.tagging.mediator.State() == IndexEdit(old(c.tagging.mediator.State()), c.tagging.nodeId, c.tagging.tag, c.tagging.action == AddAction))
    && (c.DeleteCmd? && ChildrenAt(old(c.delete.tree.root), c.delete.parentId).Some? ==>
      c.delete.tree.root == WithChildren(old(c.delete.tree.root), c.delete.parentId,
        Remove(ChildrenAt(old(c.delete.tree.root), c.delete.parentId).value, c.delete.nodeId).0))
    && (c.CopyCmd? ==>
      c.copy.clipboard.content.Some? && SameShape(Live(c.copy.tree.root, c.copy.node), c.copy.clipboard.content.value))
    && (c.PasteCmd? && ok ==>
      c.paste.pastedNode.Some? &&
      c.paste.tree.root == (match ChildrenAt(old(c.paste.tree.root), c.paste.targetId)
        case Some(kids) => WithChildren(old(c.paste.tree.root), c.paste.targetId, Add(kids, c.paste.pastedNode.value))
        case None => old(c.paste.tree.root)))
  }

  /**
   * The effect of `undo`, kind by kind, as each command's own `undo` states
   * it: the sort orders recorded by `execute` put back, the deleted node
   * inserted at its old index, the opposite tag change, the clipboard's
   * previous content back, the pasted node taken out again.
   */
  twostate predicate Reverted(c: Command)
    reads Footprint(c)
  {
    && (c.SortCmd? ==> c.sort.tree.root == RestoreAll(old(c.sort.tree.root), old(c.sort.previousOrders)))
    && (c.RestoreSortCmd? ==>
      c.restore.tree.root == RestoreAll(old(c.restore.tree.root), old(c.restore.sortedOrders)))
    && (c.DeleteCmd? && old(c.delete.removedIndex) != -1 && ChildrenAt(old(c.delete.tree.root), c.delete.parentId).Some? ==>
      c.delete.tree.root == WithChildren(old(c.delete.tree.root), c.delete.parentId,
        InsertAt(ChildrenAt(old(c.delete.tree.root), c.delete.parentId).value, old(c.delete.node), old(c.delete.removedIndex))))
    && (c.DeleteCmd? && (old(c.delete.removedIndex) == -1 || ChildrenAt(old(c.delete.tree.root), c.delete.parentId).None?) ==>
      c.delete.tree.root == old(c.delete.tree.root))
    && (c.TagCmd? ==>
      c.tagging.tree.root == TagEdit(old(c.tagging.tree.root), c.tagging.nodeId, c.tagging.tag, c.tagging.action != AddAction))
    && (c.TagCmd? && c.tagging.mediator != null ==>
      c.tagging.mediator.State() == IndexEdit(old(c.tagging.mediator.State()), c.tagging.nodeId, c.tagging.tag, c.tagging.action != AddAction))
    && (c.CopyCmd? && old(c.copy.previousContent).None? ==>
      c.copy.clipboard.content == None && c.copy.clipboard.sourceName == None)
    && (c.CopyCmd? && old(c.copy.previousContent).Some? ==>
      c.copy.clipboard.content.Some? && SameShape(old(c.copy.previousContent).value, c.copy.clipboard.content.value)
      && c.copy.clipboard.sourceName == Some(old(c.copy.previousContent).value.name))
    && (c.PasteCmd? ==> c.paste.pastedNode == None)
    && (c.PasteCmd? && old(c.paste.pastedNode).None? ==> c.paste.tree.root == old(c.paste.tree.root))
    && (c.PasteCmd? && old(c.paste.pastedNode).Some? ==>
      c.paste.tree.root == (match ChildrenAt(old(c.paste.tree.root), c.paste.targetId)
        case Some(kids) => WithChildren(old(c.paste.tree.root), c.paste.targetId, Remove(kids, old(c.paste.pastedNode).value.id).0)
        case None => old(c.paste.tree.root)))
  }

  /** Runs the command; `false` is the error a paste on an empty clipboard throws. */
  method Run(c: Command) returns (ok: bool)
    requires Ready(c)
    modifies Footprint(c)
    ensures Ready(c) && Ran(c, ok)
  {
    ok := true;
    match c
    case SortCmd(s) => s.Execute();
    case RestoreSortCmd(r) => r.Execute();
    case DeleteCmd(d) => d.Execute();
    case TagCmd(t) => t.Execute();
    case CopyCmd(k) => k.Execute();
    case PasteCmd(p) => ok := p.Execute();
  }

  /** Reverts the command with its own `undo`. */
  method Revert(c: Command)
    requires Ready(c)
    modifies Footprint(c)
    ensures Ready(c) && Reverted(c)
  {
    match c
    case SortCmd(s) => s.Undo();
    case RestoreSortCmd(r) => r.Undo();
    case DeleteCmd(d) => d.Undo();
    case TagCmd(t) => t.Undo();
    case CopyCmd(k) => k.Undo();
    case PasteCmd(p) => p.Undo();
  }

  class CommandHistory {
    var undoStack: seq<Command>
    var redoStack: seq<Command>

    function State(): Stacks<Command>
      reads this
    {
      Stacks(undoStack, redoStack)
    }

    constructor()
      ensures undoStack == [] && redoStack == []
    {
      undoStack := [];
      redoStack := [];
    }

    /** `executeCommand`: runs the command, pushes it and empties the redo stack; a failed run changes neither stack. */
    method ExecuteCommand(c: Command) returns (ok: bool)
      requires Ready(c) && this !in Footprint(c)
      modifies this, Footprint(c)
      ensures Ready(c)
      ensures Ran(c, ok)
      ensures ok ==> State() == Executed(old(State()), c)
      ensures !ok ==> State() == old(State())
    {
      ok := Run(c);
      if ok {
        undoStack := undoStack + [c];
        redoStack := [];
      }
    }

    /** `undo`: `None` on an empty stack; otherwise reverts the top command and moves it to the redo stack. */
    method Undo() returns (r: Option<Command>)
      requires |undoStack| > 0 ==> Ready(undoStack[|undoStack| - 1]) && this !in Footprint(undoStack[|undoStack| - 1])
      modifies this, if |undoStack| > 0 then Footprint(undoStack[|undoStack| - 1]) else {}
      ensures r.None? <==> |old(undoStack)| == 0
      ensures r.None? ==> State() == old(State())
      ensures r.Some? ==> r.value == old(undoStack)[|old(undoStack)| - 1] && State() == Undone(old(State()))
      ensures r.Some? ==> Reverted(r.value)
    {
      if |undoStack| == 0 {
        return None;
      }
      var c := undoStack[|undoStack| - 1];
      Revert(c);
      undoStack := undoStack[..|undoStack| - 1];
      redoStack := redoStack + [c];
      r := Some(c);
    }

    /**
     * `redo`: `None` on an empty stack; otherwise runs the top command again and
     * moves it to the undo stack. `ok` is false when that run fails, and then
     * neither stack changes.
     */
    method Redo() returns (r: Option<Command>, ok: bool)
      requires |redoStack| > 0 ==> Ready(redoStack[|redoStack| - 1]) && this !in Footprint(redoStack[|redoStack| - 1])
      modifies this, if |redoStack| > 0 then Footprint(redoStack[|redoStack| - 1]) else {}
      ensures r.None? <==> |old(redoStack)| == 0
      ensures r.None? ==> ok && State() == old(State())
      ensures r.Some? ==> r.value == old(redoStack)[|old(redoStack)| - 1]
      ensures r.Some? && ok ==> State() == Redone(old(State()))
      ensures r.Some? ==> Ran(r.value, ok)
      ensures !ok ==> State() == old(State())
    {
      if |redoStack| == 0 {
        return None, true;
      }
      var c := redoStack[|redoStack| - 1];
      ok := Run(c);
      r := Some(c);
      if ok {
        redoStack := redoStack[..|redoStack| - 1];
        undoStack := undoStack + [c];
      }
    }

    predicate CanUndo()
      reads this
      ensures CanUndo() <==> undoStack != []
    {
      |undoStack| > 0
    }

    predicate CanRedo()
      reads this
      ensures CanRedo() <==> redoStack != []
    {
      |redoStack| > 0
    }

    function UndoCount(): (n: nat)
      reads this
      ensures n == |undoStack|
    {
      |undoStack|
    }

    function RedoCount(): (n: nat)
      reads this
      ensures n == |redoStack|
    {
      |redoStack|
    }

    method Clear()
      modifies this
      ensures undoStack == [] && redoStack == []
    {
      undoStack := [];
      redoStack := [];
    }
  }
}
