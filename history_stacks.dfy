// The undo and redo stacks of the command history, as values: what one
// `undo` or `redo` does to them, and what `k` of them in a row do.

module HistoryStacks {
  /** The two stacks, tops at the end. */
  datatype Stacks<C> = Stacks(undo: seq<C>, redo: seq<C>)

  /** A new command is pushed and the redo branch is dropped. */
  function Executed<C>(h: Stacks<C>, c: C): (r: Stacks<C>)
    ensures |r.undo| == |h.undo| + 1 && r.undo[|h.undo|] == c && r.redo == []
  {
    Stacks(h.undo + [c], [])
  }

  /** The top of the undo stack moves to the redo stack. */
  function Undone<C>(h: Stacks<C>): Stacks<C>
    requires |h.undo| > 0
  {
    Stacks(h.undo[..|h.undo| - 1], h.redo + [h.undo[|h.undo| - 1]])
  }

  /** The top of the redo stack moves back to the undo stack. */
  function Redone<C>(h: Stacks<C>): Stacks<C>
    requires |h.redo| > 0
  {
    Stacks(h.undo + [h.redo[|h.redo| - 1]], h.redo[..|h.redo| - 1])
  }

  /** `undo` then `redo` gives back the stacks, and so does `redo` then `undo`; both keep the total. */
  lemma {:induction false} UndoRedoInverse<C>(h: Stacks<C>)
    ensures |h.undo| > 0 ==> |Undone(h).redo| > 0 && Redone(Undone(h)) == h
    ensures |h.redo| > 0 ==> |Redone(h).undo| > 0 && Undone(Redone(h)) == h
    ensures |h.undo| > 0 ==> |Undone(h).undo| + |Undone(h).redo| == |h.undo| + |h.redo|
    ensures |h.redo| > 0 ==> |Redone(h).undo| + |Redone(h).redo| == |h.undo| + |h.redo|
  {
    if |h.undo| > 0 {
      assert h.undo[..|h.undo| - 1] + [h.undo[|h.undo| - 1]] == h.undo;
    }
    if |h.redo| > 0 {
      assert h.redo[..|h.redo| - 1] + [h.redo[|h.redo| - 1]] == h.redo;
    }
  }

  /** `k` undos in a row move the top `k` commands to the redo stack, most recent first. */
  lemma {:induction false} UndoNMoves<C>(h: Stacks<C>, k: nat)
    requires k <= |h.undo|
    ensures UndoN(h, k).undo == h.undo[..|h.undo| - k]
    ensures UndoN(h, k).redo == h.redo + Reversed(h.undo[|h.undo| - k..])
  {
    if k > 0 {
      UndoNMoves(h, k - 1);
      var n := |h.undo|;
      var x := h.undo[n - k];
      var g := UndoN(h, k - 1);
      assert g.undo[|g.undo| - 1] == x;
      assert g.undo[..|g.undo| - 1] == h.undo[..n - k];
      var rest := h.undo[n - (k - 1)..];
      assert h.undo[n - k..] == [x] + rest;
      ReversedCons(x, rest);
      assert UndoN(h, k).redo == (h.redo + Reversed(rest)) + [x];
      assert (h.redo + Reversed(rest)) + [x] == h.redo + (Reversed(rest) + [x]);
    }
  }

  /** `k` undos followed by `k` redos give back the stacks. */
  lemma {:induction false} UndoNRedoN<C>(h: Stacks<C>, k: nat)
    requires k <= |h.undo|
    ensures RedoN(UndoN(h, k), k) == h
  {
    if k > 0 {
      var g := UndoN(h, k - 1);
      UndoRedoInverse(g);
      UndoNRedoN(h, k - 1);
    }
  }

  /** The stacks after `k` redos in a row. */
  function RedoN<C>(h: Stacks<C>, k: nat): (r: Stacks<C>)
    requires k <= |h.redo|
    ensures |r.undo| == |h.undo| + k && |r.redo| == |h.redo| - k
    decreases k
  {
    if k == 0 then h else RedoN(Redone(h), k - 1)
  }

  /** The stacks after `k` undos in a row. */
  function UndoN<C>(h: Stacks<C>, k: nat): (r: Stacks<C>)
    requires k <= |h.undo|
    ensures |r.undo| == |h.undo| - k && |r.redo| == |h.redo| + k
    decreases k
  {
    if k == 0 then h else Undone(UndoN(h, k - 1))
  }

  function Reversed<T>(s: seq<T>): seq<T> {
    if s == [] then [] else Reversed(s[1..]) + [s[0]]
  }

  /** The reversal holds the same elements, the last first. */
  lemma {:induction false} ReversedSpec<T>(s: seq<T>)
    ensures |Reversed(s)| == |s|
    ensures forall i :: 0 <= i < |s| ==> Reversed(s)[i] == s[|s| - 1 - i]
  {
    if s != [] {
      ReversedSpec(s[1..]);
    }
  }

  lemma ReversedCons<T>(x: T, s: seq<T>)
    ensures Reversed([x] + s) == Reversed(s) + [x]
  {
    assert ([x] + s)[1..] == s;
  }
}
