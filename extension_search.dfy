// The extension search visitor: a pre-order walk that collects one result
// line per file whose name ends with the target, and, when a subject is
// attached, publishes a `visiting` event for every node and a `matched`
// event right after the `visiting` event of every matching file.

module ExtensionSearch {
  import opened Common
  import opened Strings
  import opened Nodes
  import opened SearchEvents

  /** A file (never a directory) whose name ends with the target. */
  predicate IsMatch(target: string, n: Node) {
    !n.Dir? && EndsWith(n.name, target)
  }

  function ResultLine(n: Node): string {
    "找到: " + n.name + " " + Details(n)
  }

  function DirMessage(n: Node): string { "📂 進入目錄: " + n.name }
  function CheckMessage(n: Node): string { "   🔎 檢查: " + n.name }
  function MatchMessage(n: Node): string { "   ✅ 匹配: " + n.name }

  /** The result lines a walk of `n` adds, in visiting order. */
  function SearchResults(target: string, n: Node): seq<string> {
    if n.Dir? then SearchResultsOf(target, n.children) else MatchLine(target, n)
  }

  function SearchResultsOf(target: string, cs: seq<Node>): seq<string> {
    if cs == [] then [] else SearchResults(target, cs[0]) + SearchResultsOf(target, cs[1..])
  }

  /** The events a walk of `n` publishes, in order. */
  function SearchTrace(target: string, n: Node): seq<SearchEvent> {
    if n.Dir? then [SearchEvent(Visiting, Some(n), DirMessage(n))] + SearchTraceOf(target, n.children)
    else
      [SearchEvent(Visiting, Some(n), CheckMessage(n))] +
      (if IsMatch(target, n) then [SearchEvent(Matched, Some(n), MatchMessage(n))] else [])
  }

  function SearchTraceOf(target: string, cs: seq<Node>): seq<SearchEvent> {
    if cs == [] then [] else SearchTrace(target, cs[0]) + SearchTraceOf(target, cs[1..])
  }

  lemma {:induction false} ResultsOfAppend(target: string, a: seq<Node>, b: seq<Node>)
    ensures SearchResultsOf(target, a + b) == SearchResultsOf(target, a) + SearchResultsOf(target, b)
  {
    if a == [] {
      assert a + b == b;
    } else {
      assert (a + b)[1..] == a[1..] + b;
      ResultsOfAppend(target, a[1..], b);
    }
  }

  lemma {:induction false} TraceOfAppend(target: string, a: seq<Node>, b: seq<Node>)
    ensures SearchTraceOf(target, a + b) == SearchTraceOf(target, a) + SearchTraceOf(target, b)
  {
    if a == [] {
      assert a + b == b;
    } else {
      assert (a + b)[1..] == a[1..] + b;
      TraceOfAppend(target, a[1..], b);
    }
  }

  /** Extending the visited prefix of a child list by one child. */
  lemma ResultsOfSnoc(target: string, r0: seq<string>, e0: seq<SearchEvent>, cs: seq<Node>, i: nat)
    requires i < |cs|
    ensures r0 + SearchResultsOf(target, cs[..i + 1]) == r0 + SearchResultsOf(target, cs[..i]) + SearchResults(target, cs[i])
    ensures e0 + SearchTraceOf(target, cs[..i + 1]) == e0 + SearchTraceOf(target, cs[..i]) + SearchTrace(target, cs[i])
  {
    assert cs[..i + 1] == cs[..i] + [cs[i]];
    ResultsOfAppend(target, cs[..i], [cs[i]]);
    TraceOfAppend(target, cs[..i], [cs[i]]);
    assert [cs[i]][1..] == [];
  }

  /** A directory's walk: its own `visiting` event, then its children's walks. */
  lemma DirectoryUnfold(target: string, d: Node, entered: SearchEvent)
    requires d.Dir? && entered == SearchEvent(Visiting, Some(d), DirMessage(d))
    ensures SearchTrace(target, d) == [entered] + SearchTraceOf(target, d.children)
    ensures SearchResults(target, d) == SearchResultsOf(target, d.children)
  {
  }

  // ---------------------------------------------------------------------------
  // What the walk finds, stated independently of the walk

  /** The result line of one node, if it matches. */
  function MatchLine(target: string, n: Node): seq<string> {
    if IsMatch(target, n) then [ResultLine(n)] else []
  }

  /** The result lines of the matching nodes among `ls`, in order. */
  function MatchLines(target: string, ls: seq<Node>): seq<string> {
    if ls == [] then [] else MatchLine(target, ls[0]) + MatchLines(target, ls[1..])
  }

  lemma {:induction false} MatchLinesAppend(target: string, a: seq<Node>, b: seq<Node>)
    ensures MatchLines(target, a + b) == MatchLines(target, a) + MatchLines(target, b)
  {
    if a == [] {
      assert a + b == b;
    } else {
      assert (a + b)[1..] == a[1..] + b;
      MatchLinesAppend(target, a[1..], b);
    }
  }

  /**
   * The results are exactly the lines of the leaves whose name ends with
   * the target, in pre-order; no directory contributes, whatever its name.
   */
  lemma {:induction false} ResultsAreMatchingLeaves(target: string, n: Node)
    ensures SearchResults(target, n) == MatchLines(target, Leaves(n))
  {
    if n.Dir? {
      ResultsOfAreMatchingLeaves(target, n.children);
    }
  }

  lemma {:induction false} ResultsOfAreMatchingLeaves(target: string, cs: seq<Node>)
    ensures SearchResultsOf(target, cs) == MatchLines(target, LeavesOf(cs))
  {
    if cs != [] {
      ResultsAreMatchingLeaves(target, cs[0]);
      ResultsOfAreMatchingLeaves(target, cs[1..]);
      MatchLinesAppend(target, Leaves(cs[0]), LeavesOf(cs[1..]));
    }
  }

  // ---------------------------------------------------------------------------
  // Shape of the event trace

  /** The number of nodes in the subtree. */
  function NodeCount(n: Node): nat {
    1 + (if n.Dir? then NodeCountOf(n.children) else 0)
  }

  function NodeCountOf(cs: seq<Node>): nat {
    if cs == [] then 0 else NodeCount(cs[0]) + NodeCountOf(cs[1..])
  }

  /** Every `matched` event directly follows the `visiting` event of the same node. */
  predicate MatchesFollowVisits(es: seq<SearchEvent>) {
    forall k :: 0 <= k < |es| && es[k].kind == Matched ==>
      0 < k && es[k - 1].kind == Visiting && es[k - 1].node == es[k].node
  }

  lemma MatchesFollowVisitsAppend(a: seq<SearchEvent>, b: seq<SearchEvent>)
    requires MatchesFollowVisits(a) && MatchesFollowVisits(b)
    requires b != [] ==> b[0].kind != Matched
    ensures MatchesFollowVisits(a + b)
  {
    forall k | 0 <= k < |a + b| && (a + b)[k].kind == Matched
      ensures 0 < k && (a + b)[k - 1].kind == Visiting && (a + b)[k - 1].node == (a + b)[k].node
    {
      if k >= |a| {
        assert (a + b)[k] == b[k - |a|];
        if k - |a| > 0 {
          assert (a + b)[k - 1] == b[k - |a| - 1];
        }
      }
    }
  }

  /**
   * One `visiting` event per node, one `matched` event per result, every
   * `matched` right after its node's `visiting`, and the trace opens with
   * the root's `visiting`.
   */
  lemma {:induction false} TraceShape(target: string, n: Node)
    ensures CountKind(SearchTrace(target, n), Visiting) == NodeCount(n)
    ensures CountKind(SearchTrace(target, n), Matched) == |SearchResults(target, n)|
    ensures CountKind(SearchTrace(target, n), Complete) == 0
    ensures MatchesFollowVisits(SearchTrace(target, n))
    ensures SearchTrace(target, n)[0] == SearchEvent(Visiting, Some(n), if n.Dir? then DirMessage(n) else CheckMessage(n))
  {
    var v := SearchTrace(target, n)[0];
    if n.Dir? {
      TraceOfShape(target, n.children);
      CountKindAppend([v], SearchTraceOf(target, n.children), Visiting);
      CountKindAppend([v], SearchTraceOf(target, n.children), Matched);
      CountKindAppend([v], SearchTraceOf(target, n.children), Complete);
      MatchesFollowVisitsAppend([v], SearchTraceOf(target, n.children));
    } else if IsMatch(target, n) {
      var m := SearchEvent(Matched, Some(n), MatchMessage(n));
      assert SearchTrace(target, n) == [v, m];
    }
  }

  lemma {:induction false} TraceOfShape(target: string, cs: seq<Node>)
    ensures CountKind(SearchTraceOf(target, cs), Visiting) == NodeCountOf(cs)
    ensures CountKind(SearchTraceOf(target, cs), Matched) == |SearchResultsOf(target, cs)|
    ensures CountKind(SearchTraceOf(target, cs), Complete) == 0
    ensures MatchesFollowVisits(SearchTraceOf(target, cs))
    ensures SearchTraceOf(target, cs) != [] ==> SearchTraceOf(target, cs)[0].kind == Visiting
  {
    if cs != [] {
      var head := SearchTrace(target, cs[0]);
      var tail := SearchTraceOf(target, cs[1..]);
      TraceShape(target, cs[0]);
      TraceOfShape(target, cs[1..]);
      CountKindAppend(head, tail, Visiting);
      CountKindAppend(head, tail, Matched);
      CountKindAppend(head, tail, Complete);
      MatchesFollowVisitsAppend(head, tail);
    }
  }

  // ---------------------------------------------------------------------------
  // The visitor

  class ExtensionSearchVisitor {
    const target: string
    const subject: SearchSubject?
    var results: seq<string>

    constructor(target: string, subject: SearchSubject?)
      ensures this.target == target && this.subject == subject && results == []
    {
      this.target := target;
      this.subject := subject;
      results := [];
    }

    /**
     * `node.accept(this)`: the walk appends the node's results, and the
     * node's events when a subject is attached; without one nothing is sent.
     */
    method Visit(n: Node)
      modifies this, subject
      decreases n, 1
      ensures results == old(results) + SearchResults(target, n)
      ensures subject != null ==> subject.events == old(subject.events) + SearchTrace(target, n)
    {
      if n.Dir? {
        VisitDirectory(n);
      } else {
        CheckFile(n);
      }
    }

    /** `visitDirectory`: the directory's `visiting` event, then each child in order. */
    method VisitDirectory(d: Node)
      requires d.Dir?
      modifies this, subject
      decreases d, 0
      ensures results == old(results) + SearchResults(target, d)
      ensures subject != null ==> subject.events == old(subject.events) + SearchTrace(target, d)
    {
      var entered := SearchEvent(Visiting, Some(d), DirMessage(d));
      if subject != null {
        subject.Notify(entered);
      }
      VisitChildren(d, d.children);
      DirectoryUnfold(target, d, entered);
      if subject != null {
        ConcatAssoc(old(subject.events), [entered], SearchTraceOf(target, d.children));
      }
    }

    /** The `forEach` over a directory's children. */
    method VisitChildren(ghost d: Node, cs: seq<Node>)
      requires d.Dir? && cs == d.children
      modifies this, subject
      decreases d, 0, 0
      ensures results == old(results) + SearchResultsOf(target, cs)
      ensures subject != null ==> subject.events == old(subject.events) + SearchTraceOf(target, cs)
    {
      ghost var events0 := if subject != null then subject.events else [];
      for i := 0 to |cs|
        invariant results == old(results) + SearchResultsOf(target, cs[..i])
        invariant subject != null ==> subject.events == events0 + SearchTraceOf(target, cs[..i])
      {
        assert cs[i] in d.children;
        ResultsOfSnoc(target, old(results), events0, cs, i);
        Visit(cs[i]);
      }
      assert cs[..|cs|] == cs;
    }

    /** `checkFile`: the `visiting` event, then the result and `matched` event when the name matches. */
    method CheckFile(n: Node)
      requires !n.Dir?
      modifies this, subject
      ensures results == old(results) + SearchResults(target, n)
      ensures subject != null ==> subject.events == old(subject.events) + SearchTrace(target, n)
    {
      if subject != null {
        subject.Notify(SearchEvent(Visiting, Some(n), CheckMessage(n)));
      }
      if EndsWith(n.name, target) {
        assert SearchResults(target, n) == [ResultLine(n)];
        results := results + [ResultLine(n)];
        if subject != null {
          subject.Notify(SearchEvent(Matched, Some(n), MatchMessage(n)));
        }
      }
    }
  }
}
