// The four sort strategies. Each copies the input list and sorts the copy
// with a comparator, so the input is never changed: here a strategy is a
// function from a list of nodes to a new list, computed by insertion sort.
// The result is proved sorted by the comparator and a permutation of the
// input. `localeCompare` is the code-point order `StrCompare`.

module SortStrategies {
  import opened Common
  import opened Strings
  import opened Tags
  import opened Nodes

  datatype SortKind = ByName | BySize | ByExtension | ByTag

  datatype SortStrategy = SortStrategy(kind: SortKind, ascending: bool)

  /** The strategy's display `name`. */
  function StrategyName(s: SortStrategy): (r: string)
    ensures EndsWith(r, if s.ascending then "升冪 ↑" else "降冪 ↓")
  {
    var prefix := match s.kind
      case ByName => "名稱"
      case BySize => "大小"
      case ByExtension => "類型"
      case ByTag => "標籤";
    var suffix := if s.ascending then "升冪 ↑" else "降冪 ↓";
    assert (prefix + suffix)[|prefix + suffix| - |suffix|..] == suffix;
    prefix + suffix
  }

  // ---------------------------------------------------------------------------
  // Sort keys

  /** The index of the last occurrence of `c`, or -1. */
  function LastIndexOf(s: string, c: char): (k: int)
    ensures -1 <= k < |s|
    ensures k == -1 <==> c !in s
    ensures k != -1 ==> s[k] == c && c !in s[k + 1..]
  {
    if s == [] then -1
    else if s[|s| - 1] == c then |s| - 1
    else
      var k := LastIndexOf(s[..|s| - 1], c);
      assert s == s[..|s| - 1] + [s[|s| - 1]];
      assert k != -1 ==> s[k + 1..] == s[..|s| - 1][k + 1..] + [s[|s| - 1]];
      k
  }

  /** `getExtension`: '' for a directory; otherwise the suffix from the last '.', or '' without a dot. */
  function Extension(n: Node): (e: string)
    ensures n.Dir? ==> e == ""
    ensures e == "" || (e[0] == '.' && '.' !in e[1..] && EndsWith(n.name, e))
    ensures !n.Dir? && '.' in n.name ==> e != ""
  {
    if n.Dir? then ""
    else
      var k := LastIndexOf(n.name, '.');
      if k == -1 then ""
      else
        var e := n.name[k..];
        assert e[1..] == n.name[k + 1..];
        e
  }

  /** The tag tie-breaker: the first tag in insertion order, or '' without tags. */
  function FirstTagText(n: Node): string {
    if n.tags == [] then "" else TagName(n.tags[0])
  }

  function Sign(x: real): int {
    if x < 0.0 then -1 else if x > 0.0 then 1 else 0
  }

  function IntSign(x: int): int {
    if x < 0 then -1 else if x > 0 then 1 else 0
  }

  /** The ascending comparator of each strategy, reduced to its sign. */
  function BaseCompare(k: SortKind, a: Node, b: Node): int {
    match k
    case ByName => StrCompare(a.name, b.name)
    case BySize => Sign(SizeKB(a) - SizeKB(b))
    case ByExtension => StrCompare(Extension(a), Extension(b))
    case ByTag =>
      if |a.tags| != |b.tags| then IntSign(|a.tags| - |b.tags|)
      else StrCompare(FirstTagText(a), FirstTagText(b))
  }

  /** The comparator passed to `sort`: negated when descending. */
  function Compare(s: SortStrategy, a: Node, b: Node): int {
    var r := BaseCompare(s.kind, a, b);
    if s.ascending then r else -r
  }

  /** Every comparator flips sign when its arguments are swapped. */
  lemma CompareFlip(s: SortStrategy, a: Node, b: Node)
    ensures Compare(s, b, a) == -Compare(s, a, b)
  {
    BaseCompareFlip(s.kind, a, b);
  }

  lemma BaseCompareFlip(k: SortKind, a: Node, b: Node)
    ensures BaseCompare(k, b, a) == -BaseCompare(k, a, b)
  {
    match k {
      case ByName =>
        StrCompareAntisymmetric(a.name, b.name);
      case BySize =>
        assert SizeKB(b) - SizeKB(a) == -(SizeKB(a) - SizeKB(b));
      case ByExtension =>
        var ea, eb := Extension(a), Extension(b);
        StrCompareAntisymmetric(ea, eb);
        assert BaseCompare(k, a, b) == StrCompare(ea, eb);
        assert BaseCompare(k, b, a) == StrCompare(eb, ea);
      case ByTag =>
        var fa, fb := FirstTagText(a), FirstTagText(b);
        StrCompareAntisymmetric(fa, fb);
    }
  }

  // ---------------------------------------------------------------------------
  // Sorting

  /** Neighbours are in comparator order. */
  predicate Sorted(s: SortStrategy, r: seq<Node>) {
    forall i :: 0 <= i < |r| - 1 ==> Compare(s, r[i], r[i + 1]) <= 0
  }

  /** `x` placed in front of the first element it does not compare above. */
  function Insert(s: SortStrategy, x: Node, ys: seq<Node>): (r: seq<Node>)
    ensures multiset(r) == multiset(ys) + multiset{x}
    ensures |r| == |ys| + 1
    ensures r[0] == x || (ys != [] && r[0] == ys[0])
  {
    if ys == [] then [x]
    else if Compare(s, x, ys[0]) <= 0 then [x] + ys
    else
      assert ys == [ys[0]] + ys[1..];
      [ys[0]] + Insert(s, x, ys[1..])
  }

  /** Inserting into a sorted list keeps it sorted. */
  lemma {:induction false} InsertSorted(s: SortStrategy, x: Node, ys: seq<Node>)
    requires Sorted(s, ys)
    ensures Sorted(s, Insert(s, x, ys))
  {
    if ys != [] && Compare(s, x, ys[0]) > 0 {
      var rest := Insert(s, x, ys[1..]);
      assert Sorted(s, ys[1..]) by {
        forall i | 0 <= i < |ys[1..]| - 1 ensures Compare(s, ys[1..][i], ys[1..][i + 1]) <= 0 {
          assert ys[1..][i] == ys[i + 1] && ys[1..][i + 1] == ys[i + 2];
        }
      }
      InsertSorted(s, x, ys[1..]);
      CompareFlip(s, x, ys[0]);
      ConsSorted(s, ys[0], rest);
    }
  }

  /** A node in front of a sorted list that it does not compare above gives a sorted list. */
  lemma ConsSorted(s: SortStrategy, y: Node, rest: seq<Node>)
    requires Sorted(s, rest) && rest != [] && Compare(s, y, rest[0]) <= 0
    ensures Sorted(s, [y] + rest)
  {
    var r := [y] + rest;
    forall i | 0 <= i < |r| - 1 ensures Compare(s, r[i], r[i + 1]) <= 0 {
      if i > 0 {
        assert r[i] == rest[i - 1] && r[i + 1] == rest[i];
      }
    }
  }

  /** `[...nodes].sort(comparator)`: a new list, the same nodes, in comparator order. */
  function Sort(s: SortStrategy, cs: seq<Node>): (r: seq<Node>)
    ensures multiset(r) == multiset(cs)
    ensures |r| == |cs|
    ensures Sorted(s, r)
  {
    if cs == [] then []
    else
      assert cs == [cs[0]] + cs[1..];
      InsertSorted(s, cs[0], Sort(s, cs[1..]));
      Insert(s, cs[0], Sort(s, cs[1..]))
  }

  /** Every node in the sorted list comes from the input, and conversely. */
  lemma SortSameNodes(s: SortStrategy, cs: seq<Node>)
    ensures forall x :: x in Sort(s, cs) <==> x in cs
  {
    var r := Sort(s, cs);
    forall x ensures x in r <==> x in cs {
      assert x in r <==> x in multiset(r);
      assert x in cs <==> x in multiset(cs);
    }
  }

  /** Inserting a new node into a list without repeats gives a list without repeats. */
  lemma {:induction false} InsertKeepsDistinct(s: SortStrategy, x: Node, ys: seq<Node>)
    requires NoDups(ys) && x !in ys
    ensures NoDups(Insert(s, x, ys))
  {
    if ys != [] && Compare(s, x, ys[0]) > 0 {
      var rest := Insert(s, x, ys[1..]);
      InsertKeepsDistinct(s, x, ys[1..]);
      var y := ys[0];
      assert y !in multiset(ys[1..]) && y != x;
      assert y !in multiset(rest);
    }
  }

  /** Sorting a list without repeats gives a list without repeats. */
  lemma {:induction false} SortKeepsDistinct(s: SortStrategy, cs: seq<Node>)
    requires NoDups(cs)
    ensures NoDups(Sort(s, cs))
  {
    if cs != [] {
      SortKeepsDistinct(s, cs[1..]);
      SortSameNodes(s, cs[1..]);
      InsertKeepsDistinct(s, cs[0], Sort(s, cs[1..]));
    }
  }

  // ---------------------------------------------------------------------------
  // What sorted means for each strategy

  /** By name: neighbours' names ascend (or descend) in the string order. */
  lemma SortedByName(asc: bool, cs: seq<Node>)
    ensures var r := Sort(SortStrategy(ByName, asc), cs);
      forall i :: 0 <= i < |r| - 1 ==>
        if asc then StrCompare(r[i].name, r[i + 1].name) <= 0 else StrCompare(r[i].name, r[i + 1].name) >= 0
  {
  }

  /** By size: sizes never decrease (ascending) or never increase (descending) along the output. */
  lemma SortedBySize(asc: bool, cs: seq<Node>)
    ensures var r := Sort(SortStrategy(BySize, asc), cs);
      forall i :: 0 <= i < |r| - 1 ==>
        if asc then SizeKB(r[i]) <= SizeKB(r[i + 1]) else SizeKB(r[i]) >= SizeKB(r[i + 1])
  {
    var s := SortStrategy(BySize, asc);
    var r := Sort(s, cs);
    forall i | 0 <= i < |r| - 1
      ensures if asc then SizeKB(r[i]) <= SizeKB(r[i + 1]) else SizeKB(r[i]) >= SizeKB(r[i + 1])
    {
      assert Compare(s, r[i], r[i + 1]) <= 0;
      SizePairOrder(asc, r[i], r[i + 1]);
    }
  }

  /** Two nodes in size order: the first is no larger (ascending) or no smaller (descending). */
  lemma SizePairOrder(asc: bool, a: Node, b: Node)
    requires Compare(SortStrategy(BySize, asc), a, b) <= 0
    ensures if asc then SizeKB(a) <= SizeKB(b) else SizeKB(a) >= SizeKB(b)
  {
    var d := SizeKB(a) - SizeKB(b);
    assert Compare(SortStrategy(BySize, asc), a, b) == if asc then Sign(d) else -Sign(d);
  }

  /** By tag: tag counts ascend (or descend); equal counts are ordered by their first tag's name. */
  lemma SortedByTag(asc: bool, cs: seq<Node>)
    ensures var r := Sort(SortStrategy(ByTag, asc), cs);
      forall i :: 0 <= i < |r| - 1 ==>
        (if asc then |r[i].tags| <= |r[i + 1].tags| else |r[i].tags| >= |r[i + 1].tags|) &&
        (|r[i].tags| == |r[i + 1].tags| ==>
          if asc then StrCompare(FirstTagText(r[i]), FirstTagText(r[i + 1])) <= 0
          else StrCompare(FirstTagText(r[i]), FirstTagText(r[i + 1])) >= 0)
  {
    var s := SortStrategy(ByTag, asc);
    var r := Sort(s, cs);
    forall i | 0 <= i < |r| - 1
      ensures (if asc then |r[i].tags| <= |r[i + 1].tags| else |r[i].tags| >= |r[i + 1].tags|) &&
        (|r[i].tags| == |r[i + 1].tags| ==>
          if asc then StrCompare(FirstTagText(r[i]), FirstTagText(r[i + 1])) <= 0
          else StrCompare(FirstTagText(r[i]), FirstTagText(r[i + 1])) >= 0)
    {
      TagPairOrder(asc, r[i], r[i + 1]);
    }
  }

  /** What the tag comparator says about one pair it puts in order. */
  lemma TagPairOrder(asc: bool, a: Node, b: Node)
    requires Compare(SortStrategy(ByTag, asc), a, b) <= 0
    ensures if asc then |a.tags| <= |b.tags| else |a.tags| >= |b.tags|
    ensures |a.tags| == |b.tags| ==>
      if asc then StrCompare(FirstTagText(a), FirstTagText(b)) <= 0
      else StrCompare(FirstTagText(a), FirstTagText(b)) >= 0
  {
    var base := BaseCompare(ByTag, a, b);
    assert Compare(SortStrategy(ByTag, asc), a, b) == if asc then base else -base;
  }

  /** Keys in neighbour order (ascending, or descending) are in order between any two positions. */
  lemma {:induction false} KeysPairwise(asc: bool, keys: seq<string>, i: nat, j: nat)
    requires forall k :: 0 <= k < |keys| - 1 ==>
      if asc then StrCompare(keys[k], keys[k + 1]) <= 0 else StrCompare(keys[k + 1], keys[k]) <= 0
    requires i <= j < |keys|
    ensures asc ==> StrCompare(keys[i], keys[j]) <= 0
    ensures !asc ==> StrCompare(keys[j], keys[i]) <= 0
    decreases j - i
  {
    if i < j {
      KeysPairwise(asc, keys, i + 1, j);
      if asc {
        StrCompareTransitive(keys[i], keys[i + 1], keys[j]);
      } else {
        StrCompareTransitive(keys[j], keys[i + 1], keys[i]);
      }
    }
  }

  /** The extensions of a list of nodes, position by position. */
  function Extensions(r: seq<Node>): (keys: seq<string>)
    ensures |keys| == |r|
    ensures forall k :: 0 <= k < |r| ==> keys[k] == Extension(r[k])
  {
    if r == [] then [] else [Extension(r[0])] + Extensions(r[1..])
  }

  /** The extension keys of a list sorted by extension are in order between any two positions. */
  lemma SortedExtensionsPairwise(asc: bool, r: seq<Node>, i: nat, j: nat)
    requires Sorted(SortStrategy(ByExtension, asc), r)
    requires i <= j < |r|
    ensures asc ==> StrCompare(Extension(r[i]), Extension(r[j])) <= 0
    ensures !asc ==> StrCompare(Extension(r[j]), Extension(r[i])) <= 0
  {
    var keys := Extensions(r);
    forall k | 0 <= k < |keys| - 1
      ensures if asc then StrCompare(keys[k], keys[k + 1]) <= 0 else StrCompare(keys[k + 1], keys[k]) <= 0
    {
      assert Compare(SortStrategy(ByExtension, asc), r[k], r[k + 1]) <= 0;
      ExtensionPairOrder(asc, r[k], r[k + 1]);
    }
    KeysPairwise(asc, keys, i, j);
  }

  /** What the extension comparator says about one pair it puts in order. */
  lemma ExtensionPairOrder(asc: bool, a: Node, b: Node)
    requires Compare(SortStrategy(ByExtension, asc), a, b) <= 0
    ensures asc ==> StrCompare(Extension(a), Extension(b)) <= 0
    ensures !asc ==> StrCompare(Extension(b), Extension(a)) <= 0
  {
    var ea, eb := Extension(a), Extension(b);
    assert BaseCompare(ByExtension, a, b) == StrCompare(ea, eb);
    StrCompareAntisymmetric(ea, eb);
  }

  /**
   * By extension, ascending: directories, and files without an extension,
   * come before every file that has one.
   */
  lemma EmptyExtensionsFirst(cs: seq<Node>, i: nat, j: nat)
    requires var r := Sort(SortStrategy(ByExtension, true), cs);
      i < |r| && j < |r| && Extension(r[i]) != "" && Extension(r[j]) == ""
    ensures j < i
  {
    var r := Sort(SortStrategy(ByExtension, true), cs);
    if i <= j {
      SortedExtensionsPairwise(true, r, i, j);
    }
  }

  /** By extension, descending: the files with an extension come first. */
  lemma EmptyExtensionsLast(cs: seq<Node>, i: nat, j: nat)
    requires var r := Sort(SortStrategy(ByExtension, false), cs);
      i < |r| && j < |r| && Extension(r[i]) != "" && Extension(r[j]) == ""
    ensures i < j
  {
    var r := Sort(SortStrategy(ByExtension, false), cs);
    if j <= i {
      SortedExtensionsPairwise(false, r, j, i);
    }
  }
}
