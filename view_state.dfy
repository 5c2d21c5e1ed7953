// `ViewStateService`: the UI highlight state of each node, kept apart from
// the nodes in a map from node id to state. A node without an entry reads as
// not highlighted, so the map never holds `none`.

module ViewStates {
  import opened Nodes
  import opened DocumentTree

  datatype HighlightState = NoHighlight | VisitingHighlight | MatchedHighlight

  /** The ids of a list of subtrees grow by one subtree at a time. */
  lemma {:induction false} IdsOfSnoc(cs: seq<Node>, x: Node)
    ensures IdsOf(cs + [x]) == IdsOf(cs) + Ids(x)
  {
    if cs == [] {
      assert [] + [x] == [x];
      assert IdsOf([x]) == Ids(x) + IdsOf([]);
    } else {
      assert (cs + [x])[0] == cs[0];
      assert (cs + [x])[1..] == cs[1..] + [x];
      IdsOfSnoc(cs[1..], x);
    }
  }

  class ViewStateService {
    var highlightStates: map<NodeId, HighlightState>

    /** Only highlighted nodes have an entry. */
    ghost predicate Valid()
      reads this
    {
      forall id :: id in highlightStates ==> highlightStates[id] != NoHighlight
    }

    constructor()
      ensures highlightStates == map[] && Valid()
    {
      highlightStates := map[];
    }

    /** `getHighlightState`: the stored state, `none` when there is none. */
    function GetHighlightState(id: NodeId): (s: HighlightState)
      reads this
      ensures id !in highlightStates ==> s == NoHighlight
      ensures Valid() ==> (s != NoHighlight <==> id in highlightStates)
    {
      if id in highlightStates then highlightStates[id] else NoHighlight
    }

    /** `setHighlightState`: the node reads back the new state; every other node keeps its own. */
    method SetHighlightState(id: NodeId, state: HighlightState)
      requires Valid()
      modifies this
      ensures Valid()
      ensures GetHighlightState(id) == state
      ensures forall other :: other != id ==> GetHighlightState(other) == old(GetHighlightState(other))
      ensures state == NoHighlight ==> highlightStates == old(highlightStates) - {id}
      ensures state != NoHighlight ==> highlightStates == old(highlightStates)[id := state]
    {
      if state == NoHighlight {
        highlightStates := highlightStates - {id};
      } else {
        highlightStates := highlightStates[id := state];
      }
    }

    /** `resetAll` */
    method ResetAll()
      modifies this
      ensures highlightStates == map[] && Valid()
    {
      highlightStates := map[];
    }

    /** `resetTree`: every node of the subtree reads `none`; nodes outside it keep their state. */
    method ResetTree(n: Node)
      requires Valid()
      modifies this
      ensures Valid()
      ensures highlightStates == old(highlightStates) - Ids(n)
      ensures forall id :: id in Ids(n) ==> GetHighlightState(id) == NoHighlight
      ensures forall id :: id !in Ids(n) ==> GetHighlightState(id) == old(GetHighlightState(id))
      decreases n
    {
      highlightStates := highlightStates - {n.id};
      if n.Dir? {
        for i := 0 to |n.children|
          invariant Valid()
          invariant highlightStates == old(highlightStates) - ({n.id} + IdsOf(n.children[..i]))
        {
          ResetTree(n.children[i]);
          IdsOfSnoc(n.children[..i], n.children[i]);
          assert n.children[..i + 1] == n.children[..i] + [n.children[i]];
        }
        assert n.children[..|n.children|] == n.children;
      }
    }
  }
}
