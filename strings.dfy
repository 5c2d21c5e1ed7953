// String helpers standing in for the JavaScript built-ins the source calls:
// template-literal number rendering, `toFixed`, `repeat`, `endsWith`,
// `includes`, global single-character `replace`, `join` and `localeCompare`.
// Strings are sequences of Unicode code points.

module Strings {

  function DigitChar(d: nat): (c: char)
    requires d < 10
    ensures '0' <= c <= '9'
  {
    "0123456789"[d]
  }

  /** Decimal rendering of a natural number, as `${n}` prints it. */
  function NatText(n: nat): (r: string)
    ensures |r| > 0
    ensures forall i :: 0 <= i < |r| ==> '0' <= r[i] <= '9'
    decreases n
  {
    if n < 10 then [DigitChar(n)] else NatText(n / 10) + [DigitChar(n % 10)]
  }

  /** Decimal rendering of an integer, with a leading '-' when negative. */
  function IntText(i: int): string {
    if i < 0 then "-" + NatText(-i) else NatText(i)
  }

  /** `Number.isInteger` on a finite number. */
  predicate IsInteger(x: real) {
    x == x.Floor as real
  }

  /** x·10^d, one decimal shift at a time. */
  function Shifted(x: real, d: nat): (r: real)
    ensures x >= 0.0 ==> r >= 0.0
  {
    if d == 0 then x else Shifted(x, d - 1) * 10.0
  }

  /** `s` left-padded with '0' to at least `width` characters. */
  function ZeroPad(s: string, width: nat): (r: string)
    ensures |r| == if |s| < width then width else |s|
    decreases width - |s|
  {
    if |s| < width then ZeroPad("0" + s, width) else s
  }

  /** The integer nearest to a non-negative value, the larger one on a tie. */
  function RoundHalfUp(y: real): nat
    requires y >= 0.0
  {
    (y + 0.5).Floor
  }

  /**
   * `x.toFixed(d)` as section 21.1.3.3 of ECMA-262 defines it: n is the
   * integer nearest to |x|·10^d (the larger one on a tie); its digits, padded
   * with leading zeros to at least d + 1, get a '.' before the last d; a '-'
   * comes first when x is negative.
   */
  function FixedText(x: real, d: nat): string {
    var sign := if x < 0.0 then "-" else "";
    var n := RoundHalfUp(Shifted(if x < 0.0 then -x else x, d));
    if d == 0 then sign + NatText(n)
    else
      var m := ZeroPad(NatText(n), d + 1);
      sign + m[..|m| - d] + "." + m[|m| - d..]
  }

  /** The fewest fraction digits, from `d` up to 15, that render `x` exactly. */
  function ExactDigits(x: real, d: nat): nat
    decreases 15 - d
  {
    if d >= 15 || IsInteger(Shifted(x, d)) then d else ExactDigits(x, d + 1)
  }

  /**
   * `${x}` for a number: integers print exactly; other values print their
   * decimal expansion when it ends within 15 fraction digits.
   */
  function NumberText(x: real): string {
    if IsInteger(x) then IntText(x.Floor) else FixedText(x, ExactDigits(x, 1))
  }

  /** `' '.repeat(n)` */
  function Spaces(n: nat): (r: string)
    ensures |r| == n
    ensures forall i :: 0 <= i < n ==> r[i] == ' '
  {
    seq(n, _ => ' ')
  }

  /** `c.repeat(n)` for a single character. */
  function RepeatChar(c: char, n: nat): (r: string)
    ensures |r| == n
    ensures forall i :: 0 <= i < n ==> r[i] == c
  {
    seq(n, _ => c)
  }

  predicate StartsWith(s: string, prefix: string) {
    |prefix| <= |s| && s[..|prefix|] == prefix
  }

  /** `s.endsWith(suffix)`; every string ends with "". */
  predicate EndsWith(s: string, suffix: string) {
    |suffix| <= |s| && s[|s| - |suffix|..] == suffix
  }

  /** `s.includes(sub)`. */
  predicate Contains(s: string, sub: string) {
    exists i | 0 <= i <= |s| - |sub| :: OccursAt(s, sub, i)
  }

  predicate OccursAt(s: string, sub: string, i: int) {
    0 <= i <= |s| - |sub| && s[i..i + |sub|] == sub
  }

  /** `s.replace(/c/g, r)` for a single character `c`. */
  function ReplaceChar(s: string, c: char, r: string): string
  {
    if s == [] then []
    else (if s[0] == c then r else [s[0]]) + ReplaceChar(s[1..], c, r)
  }

  lemma ReplaceCharAppend(a: string, b: string, c: char, r: string)
    ensures ReplaceChar(a + b, c, r) == ReplaceChar(a, c, r) + ReplaceChar(b, c, r)
  {
    if a == [] {
      assert a + b == b;
    } else {
      assert (a + b)[1..] == a[1..] + b;
    }
  }

  lemma ReplaceCharSingle(c: char, x: char, r: string)
    ensures ReplaceChar([c], x, r) == if c == x then r else [c]
  {
    assert [c][1..] == [];
  }

  /** Replacing a character the text does not hold changes nothing. */
  lemma {:induction false} ReplaceCharAbsent(s: string, c: char, r: string)
    requires c !in s
    ensures ReplaceChar(s, c, r) == s
  {
    if s != [] {
      ReplaceCharAbsent(s[1..], c, r);
      assert s == [s[0]] + s[1..];
    }
  }

  /** `s.replace(/[...]/g, '')`: every character of `cs` removed. */
  function RemoveChars(s: string, cs: set<char>): string
  {
    if s == [] then []
    else (if s[0] in cs then [] else [s[0]]) + RemoveChars(s[1..], cs)
  }

  /** A character is left exactly when it was there and is not removed; text without them is kept whole. */
  lemma {:induction false} RemoveCharsSpec(s: string, cs: set<char>)
    ensures forall c :: c in RemoveChars(s, cs) <==> c in s && c !in cs
    ensures (forall c :: c in s ==> c !in cs) ==> RemoveChars(s, cs) == s
  {
    if s != [] {
      RemoveCharsSpec(s[1..], cs);
      assert s == [s[0]] + s[1..];
    }
  }

  /** `xs.join(sep)` */
  function Join(xs: seq<string>, sep: string): string {
    if xs == [] then ""
    else if |xs| == 1 then xs[0]
    else xs[0] + sep + Join(xs[1..], sep)
  }

  /**
   * The collation `localeCompare` applies: here the lexicographic order on
   * code points, returning -1, 0 or 1.
   */
  function StrCompare(a: string, b: string): (r: int)
    ensures r == 0 <==> a == b
    ensures -1 <= r <= 1
  {
    if a == [] && b == [] then 0
    else if a == [] then -1
    else if b == [] then 1
    else if a[0] < b[0] then -1
    else if a[0] > b[0] then 1
    else
      var r := StrCompare(a[1..], b[1..]);
      assert r == 0 ==> a == [a[0]] + a[1..] == [b[0]] + b[1..] == b;
      r
  }

  /** Swapping the arguments negates the comparison. */
  lemma {:induction false} StrCompareAntisymmetric(a: string, b: string)
    ensures StrCompare(b, a) == -StrCompare(a, b)
  {
    if a != [] && b != [] && a[0] == b[0] {
      StrCompareAntisymmetric(a[1..], b[1..]);
    }
  }

  /** The empty string precedes every other string. */
  lemma EmptyIsLeast(a: string)
    ensures StrCompare("", a) <= 0
    ensures StrCompare(a, "") >= 0
  {
  }

  /** The order is transitive. */
  lemma {:induction false} StrCompareTransitive(a: string, b: string, c: string)
    requires StrCompare(a, b) <= 0 && StrCompare(b, c) <= 0
    ensures StrCompare(a, c) <= 0
  {
    if a != [] && b != [] && c != [] && a[0] == b[0] && b[0] == c[0] {
      StrCompareTransitive(a[1..], b[1..], c[1..]);
    }
  }
}
