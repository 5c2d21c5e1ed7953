// `DashboardObserver`: keeps a statistics record of the search it observes,
// with a progress line recomputed after every event.

module DashboardObservers {
  import opened Common
  import opened Strings
  import opened SearchEvents

  datatype DashboardStats = DashboardStats(
    totalVisited: nat,
    totalMatched: nat,
    isComplete: bool,
    currentNode: Option<string>,
    progressText: string)

  /** `createInitialStats` */
  function InitialStats(): (s: DashboardStats)
    ensures Counts(s) == NoEvents
  {
    DashboardStats(0, 0, false, None, "等待搜尋...")
  }

  /** The record's counts and flags as a progress observer's tally. */
  function Counts(s: DashboardStats): Tally {
    Tally(s.totalVisited, s.totalMatched, s.isComplete, s.currentNode)
  }

  /** `updateProgressText`: a completion line once complete, a running line before. */
  function ProgressText(visited: nat, matched: nat, complete: bool): (r: string)
    ensures StartsWith(r, "搜尋完成！") <==> complete
  {
    if complete then "搜尋完成！已訪問 " + NatText(visited) + " 個節點，匹配 " + NatText(matched) + " 個檔案"
    else
      var r := "搜尋中... 已訪問 " + NatText(visited) + " 個節點，匹配 " + NatText(matched) + " 個";
      assert r[2] != "搜尋完成！"[2];
      r
  }

  /**
   * `update`: the counts step as for every progress observer, and the text is
   * recomputed from the new counts.
   */
  function Updated(s: DashboardStats, e: SearchEvent): (r: DashboardStats)
    ensures Counts(r) == Observe(Counts(s), e)
    ensures r.progressText == ProgressText(r.totalVisited, r.totalMatched, r.isComplete)
  {
    var t := Observe(Counts(s), e);
    DashboardStats(t.visited, t.matched, t.complete, t.current, ProgressText(t.visited, t.matched, t.complete))
  }

  /** The record after a sequence of events. */
  function UpdatedAll(s: DashboardStats, es: seq<SearchEvent>): DashboardStats {
    if es == [] then s else Updated(UpdatedAll(s, es[..|es| - 1]), es[|es| - 1])
  }

  /**
   * From the initial record, the counts are those of the events, the match
   * count never exceeds the visit count, and after any event the text
   * announces completion exactly when a `complete` event was seen.
   */
  lemma {:induction false} DashboardCounts(es: seq<SearchEvent>)
    ensures Counts(UpdatedAll(InitialStats(), es)) == ObserveAll(NoEvents, es)
    ensures UpdatedAll(InitialStats(), es).totalMatched <= UpdatedAll(InitialStats(), es).totalVisited
    ensures es != [] ==>
      (StartsWith(UpdatedAll(InitialStats(), es).progressText, "搜尋完成！") <==> CountKind(es, Complete) > 0)
  {
    if es != [] {
      DashboardCounts(es[..|es| - 1]);
    }
    ObserveAllCounts(es);
  }

  class DashboardObserver {
    var stats: DashboardStats

    constructor()
      ensures stats == InitialStats()
    {
      stats := InitialStats();
    }

    method Update(e: SearchEvent)
      modifies this
      ensures stats == Updated(old(stats), e)
    {
      var t := stats;
      match e.kind {
        case Visiting =>
          t := t.(totalVisited := t.totalVisited + 1, currentNode := NodeName(e));
        case Matched =>
          t := t.(totalVisited := t.totalVisited + 1, totalMatched := t.totalMatched + 1, currentNode := NodeName(e));
        case Complete =>
          t := t.(isComplete := true, currentNode := None);
      }
      stats := t.(progressText := ProgressText(t.totalVisited, t.totalMatched, t.isComplete));
    }

    /** `getStats`: the record is a value, so the caller's copy is independent of the observer. */
    method GetStats() returns (s: DashboardStats)
      ensures s == stats
    {
      s := stats;
    }

    method Reset()
      modifies this
      ensures stats == InitialStats()
    {
      stats := InitialStats();
    }
  }
}
