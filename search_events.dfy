// Search events and the subject that publishes them. The reactive stream
// behind the subject is modelled by its observable effect: the ordered
// sequence of events sent so far.

module SearchEvents {
  import opened Common
  import opened Nodes

  datatype EventType = Visiting | Matched | Complete

  /** A search event: its kind, the node it concerns (if any) and a display message. */
  datatype SearchEvent = SearchEvent(kind: EventType, node: Option<Node>, message: string)

  /** The number of events of a given kind. */
  function CountKind(es: seq<SearchEvent>, k: EventType): (c: nat)
    ensures c <= |es|
  {
    if es == [] then 0 else (if es[0].kind == k then 1 else 0) + CountKind(es[1..], k)
  }

  lemma {:induction false} CountKindAppend(a: seq<SearchEvent>, b: seq<SearchEvent>, k: EventType)
    ensures CountKind(a + b, k) == CountKind(a, k) + CountKind(b, k)
  {
    if a == [] {
      assert a + b == b;
    } else {
      assert (a + b)[1..] == a[1..] + b;
      CountKindAppend(a[1..], b, k);
    }
  }

  /** The node name an event carries, when it carries a node. */
  function NodeName(e: SearchEvent): Option<string> {
    if e.node.Some? then Some(e.node.value.name) else None
  }

  /** What a progress observer keeps: counts, completion and the node being processed. */
  datatype Tally = Tally(visited: nat, matched: nat, complete: bool, current: Option<string>)

  const NoEvents := Tally(0, 0, false, None)

  /**
   * One event seen by a progress observer: a visit counts one node and names
   * it, a match counts one visited node and one match, and the end of the
   * search sets the flag and clears the name.
   */
  function Observe(t: Tally, e: SearchEvent): Tally {
    match e.kind
    case Visiting => t.(visited := t.visited + 1, current := NodeName(e))
    case Matched => t.(visited := t.visited + 1, matched := t.matched + 1, current := NodeName(e))
    case Complete => t.(complete := true, current := None)
  }

  /** The events seen in order. */
  function ObserveAll(t: Tally, es: seq<SearchEvent>): Tally {
    if es == [] then t else Observe(ObserveAll(t, es[..|es| - 1]), es[|es| - 1])
  }

  /**
   * From a fresh start, the counts are those of the events seen: every visit
   * and every match is a visited node, so the match count never exceeds it.
   */
  lemma {:induction false} ObserveAllCounts(es: seq<SearchEvent>)
    ensures ObserveAll(NoEvents, es).visited == CountKind(es, Visiting) + CountKind(es, Matched)
    ensures ObserveAll(NoEvents, es).matched == CountKind(es, Matched)
    ensures ObserveAll(NoEvents, es).complete <==> CountKind(es, Complete) > 0
    ensures ObserveAll(NoEvents, es).matched <= ObserveAll(NoEvents, es).visited
  {
    if es != [] {
      var init := es[..|es| - 1];
      ObserveAllCounts(init);
      assert init + [es[|es| - 1]] == es;
      CountKindAppend(init, [es[|es| - 1]], Visiting);
      CountKindAppend(init, [es[|es| - 1]], Matched);
      CountKindAppend(init, [es[|es| - 1]], Complete);
    }
  }

  /** The subject: `notify` appends to the published stream. */
  class SearchSubject {
    var events: seq<SearchEvent>

    constructor()
      ensures events == []
    {
      events := [];
    }

    method Notify(e: SearchEvent)
      modifies this
      ensures events == old(events) + [e]
    {
      events := events + [e];
    }
  }
}
