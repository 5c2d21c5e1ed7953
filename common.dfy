// Small shared vocabulary: an optional value, and the insertion-ordered set
// that JavaScript's `Set` is (iteration visits elements in insertion order,
// `add` of a present element keeps its position, `delete` closes the gap).

module Common {

  datatype Option<T> = None | Some(value: T)

  /** No element occurs twice. */
  predicate NoDups<T(==)>(s: seq<T>) {
    forall i, j :: 0 <= i < j < |s| ==> s[i] != s[j]
  }

  /** A JavaScript `Set`, listed in insertion order. */
  type OrderedSet<T(==)> = s: seq<T> | NoDups(s) witness []

  /** `set.add(x)`: appended when absent, unchanged when present. */
  function SetAdd<T(==,!new)>(s: OrderedSet<T>, x: T): (r: OrderedSet<T>)
    ensures forall y :: y in r <==> y == x || y in s
    ensures x in s ==> r == s
    ensures x !in s ==> r == s + [x]
  {
    if x in s then s
    else
      assert NoDups(s + [x]) by {
        forall i, j | 0 <= i < j < |s + [x]| ensures (s + [x])[i] != (s + [x])[j] {
          if j == |s| { assert (s + [x])[i] == s[i]; }
        }
      }
      s + [x]
  }

  /** `set.delete(x)`: the element is removed, the others keep their order. */
  function SetDelete<T(==,!new)>(s: OrderedSet<T>, x: T): (r: OrderedSet<T>)
    ensures forall y :: y in r <==> y != x && y in s
    ensures x !in s ==> r == s
    ensures |r| == if x in s then |s| - 1 else |s|
  {
    if s == [] then []
    else if s[0] == x then
      assert forall y :: y in s[1..] ==> y != x by {
        forall y | y in s[1..] ensures y != x {
          var k :| 0 <= k < |s[1..]| && s[1..][k] == y;
          assert s[k + 1] == y;
        }
      }
      s[1..]
    else
      var rest := SetDelete(s[1..], x);
      assert NoDups([s[0]] + rest) by {
        assert s[0] !in s[1..];
        assert s[0] !in rest;
      }
      [s[0]] + rest
  }

  /** Adding an absent element and deleting it again gives back the same set, order included. */
  lemma {:induction false} AddThenDelete<T(!new)>(s: OrderedSet<T>, x: T)
    requires x !in s
    ensures SetDelete(SetAdd(s, x), x) == s
  {
    DeleteLast(s, x);
  }

  lemma {:induction false} DeleteLast<T(!new)>(s: OrderedSet<T>, x: T)
    requires x !in s
    requires NoDups(s + [x])
    ensures SetDelete(s + [x], x) == s
  {
    if s == [] {
    } else {
      assert (s + [x])[0] == s[0];
      assert (s + [x])[1..] == s[1..] + [x];
      DeleteLast(s[1..], x);
    }
  }

  /** `Array.from(...).map(f)` over an insertion-ordered collection. */
  function Map<T, U>(s: seq<T>, f: T -> U): (r: seq<U>)
    ensures |r| == |s|
    ensures forall i :: 0 <= i < |s| ==> r[i] == f(s[i])
  {
    seq(|s|, i requires 0 <= i < |s| => f(s[i]))
  }

  /** Regrouping a concatenation of three sequences. */
  lemma ConcatAssoc<T>(a: seq<T>, b: seq<T>, c: seq<T>)
    ensures a + b + c == a + (b + c)
  {
  }

  /** Taking out the element at `k` and splicing it back in at `k` restores the sequence. */
  lemma SpliceBack<T>(s: seq<T>, k: nat)
    requires k < |s|
    ensures var rest := s[..k] + s[k + 1..]; rest[..k] + [s[k]] + rest[k..] == s
  {
    var rest := s[..k] + s[k + 1..];
    assert rest[..k] == s[..k];
    assert rest[k..] == s[k + 1..];
    assert s[..k] + [s[k]] + s[k + 1..] == s;
  }

  lemma MapAppend<T, U>(a: seq<T>, b: seq<T>, f: T -> U)
    ensures Map(a + b, f) == Map(a, f) + Map(b, f)
  {
    var whole, parts := Map(a + b, f), Map(a, f) + Map(b, f);
    forall i | 0 <= i < |whole| ensures whole[i] == parts[i] {
      if i < |a| {
        assert (a + b)[i] == a[i];
      } else {
        assert (a + b)[i] == b[i - |a|];
      }
    }
  }
}
