// `SearchEventAdapter`: observes the search events and presents them as a
// progress display (a percentage, counts and a summary line).

module SearchEventAdapters {
  import opened Common
  import opened Strings
  import opened SearchEvents

  /** The constructor's default expected total. */
  const DefaultExpectedTotal: int := 10

  /**
   * `getProgress`: 100 once complete; 0 without a positive expected total;
   * otherwise the visited share as a percentage, rounded half up
   * (`Math.round`) and capped at 99.
   */
  function Progress(visited: nat, expectedTotal: int, complete: bool): (p: int)
    ensures complete ==> p == 100
    ensures !complete && expectedTotal <= 0 ==> p == 0
    ensures !complete && expectedTotal > 0 ==>
      0 <= p <= 99
      && (p < 99 ==> 2 * p * expectedTotal <= 200 * visited + expectedTotal < 2 * p * expectedTotal + 2 * expectedTotal)
      && (p == 99 ==> 2 * 99 * expectedTotal <= 200 * visited + expectedTotal)
  {
    if complete then 100
    else if expectedTotal <= 0 then 0
    else
      var r := RoundedPercent(visited, expectedTotal);
      if r < 99 then r else 99
  }

  /** `Math.round(visited / total * 100)`: the nearest whole percentage, the larger on a tie. */
  function RoundedPercent(visited: nat, total: int): (r: nat)
    requires total > 0
    ensures 2 * r * total <= 200 * visited + total < 2 * r * total + 2 * total
  {
    var n := 200 * visited + total;
    var q := n / (2 * total);
    assert n == q * (2 * total) + n % (2 * total);
    q
  }

  /** More visited nodes never lower the progress. */
  lemma ProgressMonotone(v1: nat, v2: nat, expectedTotal: int, complete: bool)
    requires v1 <= v2
    ensures Progress(v1, expectedTotal, complete) <= Progress(v2, expectedTotal, complete)
  {
    if !complete && expectedTotal > 0 {
      RoundedMonotone(v1, v2, expectedTotal);
    }
  }

  lemma RoundedMonotone(v1: nat, v2: nat, total: int)
    requires total > 0 && v1 <= v2
    ensures RoundedPercent(v1, total) <= RoundedPercent(v2, total)
  {
    var r1 := RoundedPercent(v1, total);
    var r2 := RoundedPercent(v2, total);
    assert r1 * total < (r2 + 1) * total;
    LessFactor(r1, r2 + 1, total);
  }

  /** Dividing out a positive factor keeps a strict order. */
  lemma LessFactor(a: int, b: int, c: int)
    requires c > 0 && a * c < b * c
    ensures a < b
  {
  }

  /** `getSummary` */
  function Summary(visited: nat, matched: nat, complete: bool, expectedTotal: int): (s: string)
    ensures StartsWith(s, "搜尋完成！") <==> complete
  {
    if complete then "搜尋完成！已訪問 " + NatText(visited) + " 個節點，匹配 " + NatText(matched) + " 個檔案"
    else
      var s := "搜尋中... " + IntText(Progress(visited, expectedTotal, complete)) + "% — 已訪問 "
        + NatText(visited) + " 個節點，匹配 " + NatText(matched) + " 個";
      assert s[2] != "搜尋完成！"[2];
      s
  }

  class SearchEventAdapter {
    var visited: nat
    var matched: nat
    var complete: bool
    var currentNode: Option<string>
    var expectedTotal: int

    /** The counts and flags as a progress observer's tally. */
    function Seen(): Tally
      reads this
    {
      Tally(visited, matched, complete, currentNode)
    }

    ghost predicate Valid()
      reads this
    {
      matched <= visited
    }

    /**
     * The caller passes the expected total; a caller that omits it in the
     * program gets `DefaultExpectedTotal`.
     */
    constructor(expectedTotal: int)
      ensures Seen() == NoEvents && this.expectedTotal == expectedTotal && Valid()
    {
      visited := 0;
      matched := 0;
      complete := false;
      currentNode := None;
      this.expectedTotal := expectedTotal;
    }

    /** `update`: one event folded into the counts; the expected total is kept. */
    method Update(e: SearchEvent)
      requires Valid()
      modifies this
      ensures Valid()
      ensures Seen() == Observe(old(Seen()), e) && expectedTotal == old(expectedTotal)
    {
      match e.kind {
        case Visiting =>
          visited := visited + 1;
          currentNode := NodeName(e);
        case Matched =>
          visited := visited + 1;
          matched := matched + 1;
          currentNode := NodeName(e);
        case Complete =>
          complete := true;
          currentNode := None;
      }
    }

    method GetProgress() returns (p: int)
      ensures p == Progress(visited, expectedTotal, complete)
    {
      if complete {
        return 100;
      }
      if expectedTotal <= 0 {
        return 0;
      }
      p := RoundedPercent(visited, expectedTotal);
      if p > 99 {
        p := 99;
      }
    }

    method GetSummary() returns (s: string)
      ensures s == Summary(visited, matched, complete, expectedTotal)
    {
      s := Summary(visited, matched, complete, expectedTotal);
    }

    method SetExpectedTotal(total: int)
      modifies this
      ensures expectedTotal == total && Seen() == old(Seen())
    {
      expectedTotal := total;
    }

    /** `reset`: back to no events seen; the expected total is kept. */
    method Reset()
      modifies this
      ensures Seen() == NoEvents && expectedTotal == old(expectedTotal) && Valid()
    {
      visited := 0;
      matched := 0;
      complete := false;
      currentNode := None;
    }
  }

  /** The adapter's view of a search: a fresh adapter fed `es` reports their counts. */
  lemma AdapterCounts(es: seq<SearchEvent>, expectedTotal: int)
    ensures var t := ObserveAll(NoEvents, es);
      t.matched <= t.visited
      && Progress(t.visited, expectedTotal, t.complete) == (if CountKind(es, Complete) > 0 then 100 else Progress(CountKind(es, Visiting) + CountKind(es, Matched), expectedTotal, false))
  {
    ObserveAllCounts(es);
  }
}
