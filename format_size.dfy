// `formatSize`: a size in KB rendered with the largest unit (KB, MB, GB)
// whose value stays below 1024, integers exactly and other values with one
// fraction digit.

module SizeFormat {
  import opened Strings

  datatype SizeUnit = KB | MB | GB

  function UnitSuffix(u: SizeUnit): string {
    match u
    case KB => "KB"
    case MB => "MB"
    case GB => "GB"
  }

  /** Position of a unit in the order KB < MB < GB. */
  function UnitRank(u: SizeUnit): nat {
    match u
    case KB => 0
    case MB => 1
    case GB => 2
  }

  /** The unit `formatSize` picks for a size in KB. */
  function UnitFor(sizeKB: real): SizeUnit {
    if sizeKB < 1024.0 then KB
    else if sizeKB / 1024.0 < 1024.0 then MB
    else GB
  }

  /** The size expressed in the unit `formatSize` picks. */
  function Amount(sizeKB: real): real {
    match UnitFor(sizeKB)
    case KB => sizeKB
    case MB => sizeKB / 1024.0
    case GB => sizeKB / 1024.0 / 1024.0
  }

  /** `Number.isInteger(v) ? `${v}` : v.toFixed(1)` */
  function AmountText(v: real): string {
    if IsInteger(v) then IntText(v.Floor) else FixedText(v, 1)
  }

  function FormatSize(sizeKB: real): string {
    AmountText(Amount(sizeKB)) + UnitSuffix(UnitFor(sizeKB))
  }

  /** The output always ends in exactly one of the three unit suffixes, the one `UnitFor` picks. */
  lemma SuffixIsUnit(sizeKB: real, u: SizeUnit)
    ensures EndsWith(FormatSize(sizeKB), UnitSuffix(u)) <==> u == UnitFor(sizeKB)
  {
    var s := FormatSize(sizeKB);
    var w := UnitSuffix(UnitFor(sizeKB));
    assert s[|s| - 2..] == w;
  }

  /** Below 1024 KB the size is printed in KB as given. */
  lemma BelowOneMegabyte(sizeKB: real)
    requires sizeKB < 1024.0
    ensures FormatSize(sizeKB) == AmountText(sizeKB) + "KB"
  {
  }

  /** From 1024 KB up to, not including, 1024 MB the size is printed as sizeKB/1024 MB. */
  lemma MegabyteRange(sizeKB: real)
    requires 1024.0 <= sizeKB < 1024.0 * 1024.0
    ensures FormatSize(sizeKB) == AmountText(sizeKB / 1024.0) + "MB"
    ensures 1.0 <= sizeKB / 1024.0 < 1024.0
  {
  }

  /** From 1024 MB on the size is printed as sizeKB/1024² GB. */
  lemma GigabyteRange(sizeKB: real)
    requires sizeKB >= 1024.0 * 1024.0
    ensures FormatSize(sizeKB) == AmountText(sizeKB / 1024.0 / 1024.0) + "GB"
  {
  }

  /** A larger size never gets a smaller unit. */
  lemma UnitMonotone(a: real, b: real)
    requires a <= b
    ensures UnitRank(UnitFor(a)) <= UnitRank(UnitFor(b))
  {
  }

  /** Whole numbers of the chosen unit print without a fraction. */
  lemma IntegerAmountsExact(n: nat)
    requires n < 1024
    ensures FormatSize(n as real) == NatText(n) + "KB"
    ensures FormatSize((n * 1024) as real) == (if n == 0 then "0KB" else NatText(n) + "MB")
  {
    assert UnitFor(n as real) == KB && Amount(n as real) == n as real;
    WholeAmount(n);
    if n > 0 {
      var s := (n * 1024) as real;
      assert s / 1024.0 == n as real;
      assert UnitFor(s) == MB && Amount(s) == n as real;
      assert FormatSize(s) == AmountText(n as real) + "MB";
    }
  }

  /** 500 KB prints as "500KB". */
  lemma Example500()
    ensures FormatSize(500.0) == "500KB"
  {
    WholeAmount(500);
    assert NatText(5) == "5";
    assert NatText(50) == NatText(5) + "0";
    assert NatText(500) == NatText(50) + "0";
  }

  /** A whole amount prints as its digits. */
  lemma WholeAmount(n: nat)
    ensures AmountText(n as real) == NatText(n)
  {
    assert (n as real).Floor == n;
  }

  /** 0.5 KB prints as "0.5KB". */
  lemma ExampleHalf()
    ensures FormatSize(0.5) == "0.5KB"
  {
    assert !IsInteger(0.5);
    assert Shifted(0.5, 1) == 5.0;
    assert RoundHalfUp(5.0) == 5;
    assert ZeroPad("5", 2) == "05";
  }

  /** 2048 KB prints as "2MB" and 1024² KB as "1GB". */
  lemma ExampleWholeUnits()
    ensures FormatSize(2048.0) == "2MB"
    ensures FormatSize(1048576.0) == "1GB"
  {
    assert 2048.0 / 1024.0 == 2.0;
    assert 1048576.0 / 1024.0 / 1024.0 == 1.0;
    WholeAmount(2);
    WholeAmount(1);
  }

  /** 1536 KB prints as "1.5MB". */
  lemma ExampleOneAndAHalfMegabytes()
    ensures FormatSize(1536.0) == "1.5MB"
  {
    assert 1536.0 / 1024.0 == 1.5;
    assert !IsInteger(1.5);
    assert RoundHalfUp(Shifted(1.5, 1)) == 15;
    assert NatText(15) == NatText(1) + "5";
  }
}
