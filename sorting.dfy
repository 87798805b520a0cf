/**
 * Sorting the files of a group, and the version comparison behind the
 * `version` sort key.
 *
 * The comparison of versions is close to `strverscmp(3)` with two
 * differences the code has on purpose or by construction: only the first
 * pair of digit runs is compared (what follows them is ignored), and when a
 * run does not fit in a `usize` the whole strings are compared byte by byte.
 */
module Sorting {
  import opened Common
  import Config
  import Files

  // ---------------------------------------------------------------------
  // Version comparison.

  /** Where the scan of the common prefix stops: with an answer, or at the first pair of digits. */
  datatype Scan = Decided(ord: Ordering) | AtDigits(rest1: seq<Byte>, rest2: seq<Byte>)

  /**
   * The `'prefix` loop: a side that ends first is less; a pair of digits
   * stops the scan; a pair of different bytes decides by byte order.
   */
  function ScanPrefix(a: seq<Byte>, b: seq<Byte>): (r: Scan)
    ensures r.AtDigits? ==> |r.rest1| > 0 && |r.rest2| > 0 && IsAsciiDigit(r.rest1[0]) && IsAsciiDigit(r.rest2[0])
    ensures r.AtDigits? ==> |r.rest1| <= |a| && |r.rest2| <= |b| && |a| - |r.rest1| == |b| - |r.rest2|
    ensures r.AtDigits? ==> r.rest1 == a[|a| - |r.rest1|..] && r.rest2 == b[|b| - |r.rest2|..]
    decreases |a|
  {
    if |a| == 0 && |b| == 0 then Decided(Equal)
    else if |a| == 0 then Decided(Less)
    else if |b| == 0 then Decided(Greater)
    else if IsAsciiDigit(a[0]) && IsAsciiDigit(b[0]) then AtDigits(a, b)
    else if a[0] != b[0] then Decided(CompareInt(a[0], b[0]))
    else ScanPrefix(a[1..], b[1..])
  }

  /** The longest prefix of `s` made of decimal digits. */
  function DigitRun(s: seq<Byte>): (r: seq<Byte>)
    ensures |r| <= |s| && r == s[..|r|]
    ensures forall i :: 0 <= i < |r| ==> IsAsciiDigit(r[i])
    ensures |r| == |s| || !IsAsciiDigit(s[|r|])
  {
    if s == [] || !IsAsciiDigit(s[0]) then []
    else
      var rest := DigitRun(s[1..]);
      assert [s[0]] + rest == s[..|rest| + 1];
      [s[0]] + rest
  }

  /** `compare_versions` as a function of the two byte strings. */
  function VersionCmp(s1: seq<Byte>, s2: seq<Byte>): Ordering {
    match ScanPrefix(s1, s2)
    case Decided(o) => o
    case AtDigits(r1, r2) =>
      var n1 := DigitsValue(DigitRun(r1));
      var n2 := DigitsValue(DigitRun(r2));
      if n1 > USIZE_MAX || n2 > USIZE_MAX then LexCompare(s1, s2) else CompareInt(n1, n2)
  }

  lemma {:induction false} DigitsValueSnoc(ds: seq<Byte>, d: Byte)
    requires forall i :: 0 <= i < |ds| ==> IsAsciiDigit(ds[i])
    requires IsAsciiDigit(d)
    ensures DigitsValue(ds + [d]) == DigitsValue(ds) * 10 + (d - '0' as int)
  {
    assert (ds + [d])[..|ds|] == ds;
  }

  /** A longer run never has a smaller value. */
  lemma {:induction false} DigitsValuePrefix(ds: seq<Byte>, k: nat)
    requires forall i :: 0 <= i < |ds| ==> IsAsciiDigit(ds[i])
    requires k <= |ds|
    ensures DigitsValue(ds[..k]) <= DigitsValue(ds)
    decreases |ds| - k
  {
    if k < |ds| {
      DigitsValuePrefix(ds, k + 1);
      assert ds[..k + 1] == ds[..k] + [ds[k]];
      DigitsValueSnoc(ds[..k], ds[k]);
    } else {
      assert ds[..k] == ds;
    }
  }

  /**
   * One of the two accumulation loops of `compare_versions`: the value of
   * the digit run at `start`, or `None` as soon as it would pass `usize::MAX`.
   */
  method ReadNumber(s: seq<Byte>, start: nat) returns (r: Option<nat>)
    requires start < |s| && IsAsciiDigit(s[start])
    ensures r.None? <==> DigitsValue(DigitRun(s[start..])) > USIZE_MAX
    ensures r.Some? ==> r.value == DigitsValue(DigitRun(s[start..]))
  {
    var run := DigitRun(s[start..]);
    RunContinues(s, start, start, run);
    DigitStep(run, 0);
    var number: nat := s[start] - '0' as int;
    var j := start + 1;
    while j < |s| && IsAsciiDigit(s[j])
      invariant start < j <= start + |run|
      invariant number == DigitsValue(run[..j - start]) && number <= USIZE_MAX
    {
      RunContinues(s, start, j, run);
      DigitStep(run, j - start);
      var n := number * 10 + (s[j] - '0' as int);
      if n > USIZE_MAX {
        return None;
      }
      number := n;
      j := j + 1;
    }
    RunEnds(s, start, j, run);
    assert run[..j - start] == run;
    return Some(number);
  }

  /** Where the loop finds one more digit, the digit run goes on with that digit. */
  lemma RunContinues(s: seq<Byte>, start: nat, j: nat, run: seq<Byte>)
    requires start <= j < |s| && IsAsciiDigit(s[j]) && run == DigitRun(s[start..]) && j - start <= |run|
    ensures j - start < |run| && run[j - start] == s[j]
  {
    var tail := s[start..];
    assert tail[j - start] == s[j];
  }

  /** Where the loop stops, the digit run ends. */
  lemma RunEnds(s: seq<Byte>, start: nat, j: nat, run: seq<Byte>)
    requires start < j <= |s| && run == DigitRun(s[start..]) && j - start <= |run|
    requires j == |s| || !IsAsciiDigit(s[j])
    ensures j - start == |run|
  {
    var tail := s[start..];
    assert |tail| == |s| - start;
    if j < |s| {
      assert tail[j - start] == s[j];
    }
  }

  /** One more digit of a run: the value of the longer prefix, which is still no more than the whole run's. */
  lemma DigitStep(run: seq<Byte>, k: nat)
    requires k < |run| && forall i :: 0 <= i < |run| ==> IsAsciiDigit(run[i])
    ensures DigitsValue(run[..k + 1]) == DigitsValue(run[..k]) * 10 + (run[k] - '0' as int)
    ensures DigitsValue(run[..k + 1]) <= DigitsValue(run)
  {
    assert run[..k + 1] == run[..k] + [run[k]];
    DigitsValueSnoc(run[..k], run[k]);
    DigitsValuePrefix(run, k + 1);
  }

  /**
   * `compare_versions`: the `'prefix` loop over both strings, then the
   * accumulation of the two digit runs with overflow checks.
   */
  method CompareVersions(s1: seq<Byte>, s2: seq<Byte>) returns (r: Ordering)
    ensures r == VersionCmp(s1, s2)
  {
    var i := 0;
    while true
      invariant i <= |s1| && i <= |s2|
      invariant ScanPrefix(s1, s2) == ScanPrefix(s1[i..], s2[i..])
      decreases |s1| - i
    {
      if i == |s1| && i == |s2| {
        return Equal;
      } else if i == |s1| {
        return Less;
      } else if i == |s2| {
        return Greater;
      }
      var a := s1[i];
      var b := s2[i];
      if IsAsciiDigit(a) && IsAsciiDigit(b) {
        break;
      }
      if a != b {
        return CompareInt(a, b);
      }
      assert s1[i..][1..] == s1[i + 1..] && s2[i..][1..] == s2[i + 1..];
      i := i + 1;
    }
    assert ScanPrefix(s1, s2) == AtDigits(s1[i..], s2[i..]);
    var number1 := ReadNumber(s1, i);
    if number1.None? {
      return LexCompare(s1, s2);
    }
    var number2 := ReadNumber(s2, i);
    if number2.None? {
      return LexCompare(s1, s2);
    }
    return CompareInt(number1.value, number2.value);
  }

  // ---------------------------------------------------------------------
  // Properties of the version comparison.

  /** Every string is equal to itself. */
  lemma VersionCmpReflexive(s: seq<Byte>)
    ensures VersionCmp(s, s) == Equal
  {
    ScanSame(s);
    LexCompareEqual(s, s);
  }

  lemma {:induction false} ScanSame(s: seq<Byte>)
    ensures ScanPrefix(s, s).Decided? ==> ScanPrefix(s, s).ord == Equal
    ensures ScanPrefix(s, s).AtDigits? ==> ScanPrefix(s, s).rest1 == ScanPrefix(s, s).rest2
  {
    if |s| > 0 && !IsAsciiDigit(s[0]) {
      ScanSame(s[1..]);
    }
  }

  /** Swapping the arguments reverses the answer. */
  lemma VersionCmpAntisymmetric(s1: seq<Byte>, s2: seq<Byte>)
    ensures VersionCmp(s2, s1) == VersionCmp(s1, s2).Reverse()
  {
    ScanSwap(s1, s2);
    LexCompareAntisymmetric(s1, s2);
  }

  lemma {:induction false} ScanSwap(a: seq<Byte>, b: seq<Byte>)
    ensures ScanPrefix(b, a).Decided? <==> ScanPrefix(a, b).Decided?
    ensures ScanPrefix(a, b).Decided? ==> ScanPrefix(b, a).ord == ScanPrefix(a, b).ord.Reverse()
    ensures ScanPrefix(a, b).AtDigits? ==>
      ScanPrefix(b, a) == AtDigits(ScanPrefix(a, b).rest2, ScanPrefix(a, b).rest1)
    decreases |a|
  {
    if |a| > 0 && |b| > 0 && !(IsAsciiDigit(a[0]) && IsAsciiDigit(b[0])) && a[0] == b[0] {
      ScanSwap(a[1..], b[1..]);
    }
  }

  /** A digit-free common prefix is skipped by the scan and by the byte-wise fallback. */
  lemma {:induction false} CommonPrefix(p: seq<Byte>, x: seq<Byte>, y: seq<Byte>)
    requires forall i :: 0 <= i < |p| ==> !IsAsciiDigit(p[i])
    ensures ScanPrefix(p + x, p + y) == ScanPrefix(x, y)
    ensures LexCompare(p + x, p + y) == LexCompare(x, y)
  {
    if p != [] {
      assert (p + x)[0] == p[0] && (p + y)[0] == p[0] && !IsAsciiDigit(p[0]);
      assert (p + x)[1..] == p[1..] + x && (p + y)[1..] == p[1..] + y;
      CommonPrefix(p[1..], x, y);
    } else {
      assert p + x == x && p + y == y;
    }
  }

  /** The shorter of two strings, when it is a digit-free prefix of the other, is less. */
  lemma ShorterIsLess(p: seq<Byte>, y: seq<Byte>)
    requires forall i :: 0 <= i < |p| ==> !IsAsciiDigit(p[i])
    requires y != []
    ensures VersionCmp(p, p + y) == Less
  {
    CommonPrefix(p, [], y);
    assert p + [] == p;
  }

  /**
   * At the first pair of digits the answer is the numeric comparison of the
   * two digit runs, whatever follows them, when both fit in a `usize`;
   * otherwise it is the byte-wise comparison of the whole strings.
   */
  lemma FirstRunsDecide(p: seq<Byte>, d1: seq<Byte>, x: seq<Byte>, d2: seq<Byte>, y: seq<Byte>)
    requires forall i :: 0 <= i < |p| ==> !IsAsciiDigit(p[i])
    requires |d1| > 0 && forall i :: 0 <= i < |d1| ==> IsAsciiDigit(d1[i])
    requires |d2| > 0 && forall i :: 0 <= i < |d2| ==> IsAsciiDigit(d2[i])
    requires x == [] || !IsAsciiDigit(x[0])
    requires y == [] || !IsAsciiDigit(y[0])
    ensures DigitsValue(d1) <= USIZE_MAX && DigitsValue(d2) <= USIZE_MAX ==>
      VersionCmp(p + d1 + x, p + d2 + y) == CompareInt(DigitsValue(d1), DigitsValue(d2))
    ensures DigitsValue(d1) > USIZE_MAX || DigitsValue(d2) > USIZE_MAX ==>
      VersionCmp(p + d1 + x, p + d2 + y) == LexCompare(d1 + x, d2 + y)
  {
    var u1, u2 := d1 + x, d2 + y;
    ConcatAssoc(p, d1, x);
    ConcatAssoc(p, d2, y);
    CommonPrefix(p, u1, u2);
    assert u1[0] == d1[0] && u2[0] == d2[0];
    RunOf(d1, x);
    RunOf(d2, y);
    VersionCmpAtRuns(p + u1, p + u2, u1, u2, d1, d2);
  }

  /** Once the scan stops at two digit runs, their values (or the fallback) give the answer. */
  lemma VersionCmpAtRuns(s1: seq<Byte>, s2: seq<Byte>, u1: seq<Byte>, u2: seq<Byte>, d1: seq<Byte>, d2: seq<Byte>)
    requires ScanPrefix(s1, s2) == AtDigits(u1, u2) && DigitRun(u1) == d1 && DigitRun(u2) == d2
    requires LexCompare(s1, s2) == LexCompare(u1, u2)
    ensures DigitsValue(d1) <= USIZE_MAX && DigitsValue(d2) <= USIZE_MAX ==>
      VersionCmp(s1, s2) == CompareInt(DigitsValue(d1), DigitsValue(d2))
    ensures DigitsValue(d1) > USIZE_MAX || DigitsValue(d2) > USIZE_MAX ==>
      VersionCmp(s1, s2) == LexCompare(u1, u2)
  {
  }

  lemma ConcatAssoc(a: seq<Byte>, b: seq<Byte>, c: seq<Byte>)
    ensures a + b + c == a + (b + c)
  {
  }

  lemma {:induction false} RunOf(d: seq<Byte>, x: seq<Byte>)
    requires forall i :: 0 <= i < |d| ==> IsAsciiDigit(d[i])
    requires x == [] || !IsAsciiDigit(x[0])
    ensures DigitRun(d + x) == d
  {
    if d != [] {
      assert (d + x)[1..] == d[1..] + x;
      RunOf(d[1..], x);
    } else {
      assert d + x == x;
    }
  }

  /**
   * The rows of the unit-test table, each with any digit-free prefix in
   * place of `aaa`. `aaa < bbb`: the first pair of different non-digits decides.
   */
  lemma VersionTableDifferentLetters(p: seq<Byte>, a: Byte, b: Byte, x: seq<Byte>, y: seq<Byte>)
    requires forall i :: 0 <= i < |p| ==> !IsAsciiDigit(p[i])
    requires !IsAsciiDigit(a) && a < b
    ensures VersionCmp(p + [a] + x, p + [b] + y) == Less
  {
    assert p + [a] + x == p + ([a] + x) && p + [b] + y == p + ([b] + y);
    CommonPrefix(p, [a] + x, [b] + y);
  }

  /** `aaa < aaa0` and `aaa == aaa`. */
  lemma VersionTableShort(p: seq<Byte>)
    requires forall i :: 0 <= i < |p| ==> !IsAsciiDigit(p[i])
    ensures VersionCmp(p, p + [0x30]) == Less
    ensures VersionCmp(p, p) == Equal
  {
    VersionCmpReflexive(p);
    ShorterIsLess(p, [0x30]);
  }

  /** `aaa100 > aaa2` and `aaa10 > aaa9`: the runs compare as numbers, not as text. */
  lemma VersionTableNumeric(p: seq<Byte>)
    requires forall i :: 0 <= i < |p| ==> !IsAsciiDigit(p[i])
    ensures VersionCmp(p + [0x31, 0x30, 0x30], p + [0x32]) == Greater
    ensures VersionCmp(p + [0x31, 0x30], p + [0x39]) == Greater
  {
    var ten := [0x31, 0x30];
    var hundred := [0x31, 0x30, 0x30];
    assert DigitsValue(ten) == 10 by {
      assert ten[..1] == [0x31];
    }
    assert DigitsValue(hundred) == 100 by {
      assert hundred[..2] == ten;
    }
    FirstRunsDecide(p, hundred, [], [0x32], []);
    assert p + hundred + [] == p + hundred && p + [0x32] + [] == p + [0x32];
    FirstRunsDecide(p, ten, [], [0x39], []);
    assert p + ten + [] == p + ten && p + [0x39] + [] == p + [0x39];
  }

  /** `aaa9 < aaaa1`: a digit against a letter is a plain byte comparison. */
  lemma VersionTableDigitLetter(p: seq<Byte>)
    requires forall i :: 0 <= i < |p| ==> !IsAsciiDigit(p[i])
    ensures VersionCmp(p + [0x39], p + [0x61, 0x31]) == Less
  {
    CommonPrefix(p, [0x39], [0x61, 0x31]);
  }

  /** `aaa100 > aaa10z`: what follows the runs does not matter once their values differ. */
  lemma VersionTableSuffix(p: seq<Byte>)
    requires forall i :: 0 <= i < |p| ==> !IsAsciiDigit(p[i])
    ensures VersionCmp(p + [0x31, 0x30, 0x30], p + [0x31, 0x30, 0x7A]) == Greater
  {
    var ten := [0x31, 0x30];
    var hundred := [0x31, 0x30, 0x30];
    assert DigitsValue(ten) == 10 by {
      assert ten[..1] == [0x31];
    }
    assert DigitsValue(hundred) == 100 by {
      assert hundred[..2] == ten;
    }
    FirstRunsDecide(p, hundred, [], ten, [0x7A]);
    assert p + hundred + [] == p + hundred && p + ten + [0x7A] == p + [0x31, 0x30, 0x7A];
  }

  /**
   * `aaa10000000000000 < aaa10000000000001`: two long runs that fit, differing
   * in their last digit, compare by that digit.
   */
  lemma VersionTableLong(p: seq<Byte>, lead: seq<Byte>, d1: Byte, d2: Byte)
    requires forall i :: 0 <= i < |p| ==> !IsAsciiDigit(p[i])
    requires forall i :: 0 <= i < |lead| ==> IsAsciiDigit(lead[i])
    requires IsAsciiDigit(d1) && IsAsciiDigit(d2) && d1 < d2
    requires DigitsValue(lead + [d2]) <= USIZE_MAX
    ensures VersionCmp(p + (lead + [d1]), p + (lead + [d2])) == Less
  {
    var r1 := lead + [d1];
    var r2 := lead + [d2];
    DigitsValueSnoc(lead, d1);
    DigitsValueSnoc(lead, d2);
    var tens := DigitsValue(lead) * 10;
    assert DigitsValue(r1) == tens + (d1 - '0' as int) < tens + (d2 - '0' as int) == DigitsValue(r2);
    assert forall i :: 0 <= i < |r1| ==> IsAsciiDigit(r1[i]) by {
      forall i | 0 <= i < |r1| ensures IsAsciiDigit(r1[i]) {
        if i < |lead| { assert r1[i] == lead[i]; }
      }
    }
    assert forall i :: 0 <= i < |r2| ==> IsAsciiDigit(r2[i]) by {
      forall i | 0 <= i < |r2| ensures IsAsciiDigit(r2[i]) {
        if i < |lead| { assert r2[i] == lead[i]; }
      }
    }
    FirstRunsDecide(p, r1, [], r2, []);
    assert p + r1 + [] == p + r1 && p + r2 + [] == p + r2;
  }

  /**
   * `aaa90000 > aaa1000000000000000000000`: a run past `usize::MAX` makes the
   * comparison byte-wise, so the first digits decide.
   */
  lemma VersionTableOverflow(p: seq<Byte>, small: seq<Byte>, big: seq<Byte>)
    requires forall i :: 0 <= i < |p| ==> !IsAsciiDigit(p[i])
    requires |small| > 0 && forall i :: 0 <= i < |small| ==> IsAsciiDigit(small[i])
    requires |big| > 0 && forall i :: 0 <= i < |big| ==> IsAsciiDigit(big[i])
    requires DigitsValue(big) > USIZE_MAX
    requires small[0] > big[0]
    ensures VersionCmp(p + small, p + big) == Greater
  {
    FirstRunsDecide(p, small, [], big, []);
    assert p + small + [] == p + small && p + big + [] == p + big;
  }

  // ---------------------------------------------------------------------
  // The overflow fallback and transitivity.

  /** The digit `1` followed by `n` zeros. */
  function OneZeros(n: nat): (r: seq<Byte>)
    ensures |r| == n + 1 && r[0] == '1' as int
    ensures forall i :: 1 <= i < |r| ==> r[i] == '0' as int
  {
    if n == 0 then ['1' as int] else OneZeros(n - 1) + ['0' as int]
  }

  function Pow10(n: nat): nat {
    if n == 0 then 1 else 10 * Pow10(n - 1)
  }

  lemma Pow10Twenty()
    ensures Pow10(20) > USIZE_MAX
  {
    assert Pow10(5) == 100000;
    assert Pow10(10) == 10000000000 by { Pow10Add(5, 5); }
    assert Pow10(20) == 100000000000000000000 by { Pow10Add(10, 10); }
  }

  lemma {:induction false} Pow10Add(a: nat, b: nat)
    ensures Pow10(a + b) == Pow10(a) * Pow10(b)
  {
    if a > 0 {
      Pow10Add(a - 1, b);
    }
  }

  lemma {:induction false} OneZerosValue(n: nat)
    ensures DigitsValue(OneZeros(n)) == Pow10(n)
  {
    if n > 0 {
      OneZerosValue(n - 1);
      DigitsValueSnoc(OneZeros(n - 1), '0' as int);
    }
  }

  /** A string made of digits only is its own digit run. */
  lemma {:induction false} DigitRunAll(s: seq<Byte>)
    requires forall i :: 0 <= i < |s| ==> IsAsciiDigit(s[i])
    ensures DigitRun(s) == s
    decreases |s|
  {
    if s != [] {
      DigitRunAll(s[1..]);
      assert s == [s[0]] + s[1..];
    }
  }

  /** A run of digits whose value passes `usize::MAX` makes the comparison fall back to byte order. */
  lemma OverflowFallback(s1: seq<Byte>, s2: seq<Byte>)
    requires s1 != [] && s2 != [] && IsAsciiDigit(s1[0]) && IsAsciiDigit(s2[0])
    requires DigitsValue(DigitRun(s1)) > USIZE_MAX || DigitsValue(DigitRun(s2)) > USIZE_MAX
    ensures VersionCmp(s1, s2) == LexCompare(s1, s2)
  {
  }

  lemma {:induction false} Pow10Positive(n: nat)
    ensures Pow10(n) >= 1
  {
    if n > 0 {
      Pow10Positive(n - 1);
    }
  }

  /** `1` followed by twenty or more zeros does not fit in a `usize`. */
  lemma OneZerosOverflow(n: nat)
    requires n >= 20
    ensures DigitRun(OneZeros(n)) == OneZeros(n)
    ensures DigitsValue(OneZeros(n)) > USIZE_MAX
  {
    DigitRunAll(OneZeros(n));
    OneZerosValue(n);
    Pow10Twenty();
    Pow10Add(20, n - 20);
    Pow10Positive(n - 20);
  }

  /** `2` is less than `10`: both runs fit, and 2 < 10. */
  lemma TwoBeforeTen()
    ensures VersionCmp(['2' as int], ['1' as int, '0' as int]) == Less
  {
    TwoValue();
    TenValue();
  }

  /** Where a first digit run overflows, the first differing byte decides. */
  lemma FallbackByByte(s1: seq<Byte>, s2: seq<Byte>)
    requires s1 != [] && s2 != [] && IsAsciiDigit(s1[0]) && IsAsciiDigit(s2[0])
    requires DigitsValue(DigitRun(s1)) > USIZE_MAX || DigitsValue(DigitRun(s2)) > USIZE_MAX
    requires s1[0] < s2[0]
    ensures VersionCmp(s1, s2) == Less
  {
    OverflowFallback(s1, s2);
  }

  /** Where a first digit run overflows, a proper prefix comes first. */
  lemma {:induction false} FallbackByPrefix(s1: seq<Byte>, s2: seq<Byte>)
    requires s1 != [] && IsAsciiDigit(s1[0]) && |s1| < |s2| && s1 == s2[..|s1|]
    requires DigitsValue(DigitRun(s2)) > USIZE_MAX
    ensures VersionCmp(s1, s2) == Less
  {
    OverflowFallback(s1, s2);
    LexPrefixLess(s1, s2);
  }

  lemma {:induction false} LexPrefixLess(a: seq<Byte>, b: seq<Byte>)
    requires |a| < |b| && a == b[..|a|]
    ensures LexCompare(a, b) == Less
    decreases |a|
  {
    if a != [] {
      LexPrefixLess(a[1..], b[1..]);
    }
  }

  lemma OneZerosStartsTen(n: nat)
    requires n >= 1
    ensures OneZeros(n)[..2] == ['1' as int, '0' as int]
  {
    var big := OneZeros(n);
    assert big[..2][0] == '1' as int && big[..2][1] == '0' as int;
  }

  /** `10` is less than `1` followed by twenty or more zeros: the long run overflows, so bytes decide. */
  lemma TenBeforeOneZeros(n: nat)
    requires n >= 20
    ensures VersionCmp(['1' as int, '0' as int], OneZeros(n)) == Less
  {
    OneZerosStartsTen(n);
    OneZerosOverflow(n);
    FallbackByPrefix(['1' as int, '0' as int], OneZeros(n));
  }

  /** `1` followed by twenty or more zeros is less than `2`, by bytes again. */
  lemma OneZerosBeforeTwo(n: nat)
    requires n >= 20
    ensures VersionCmp(OneZeros(n), ['2' as int]) == Less
  {
    OneZerosOverflow(n);
    FallbackByByte(OneZeros(n), ['2' as int]);
  }

  /**
   * The fallback to byte order makes the version order cyclic: `2` is less
   * than `10` by value, `10` is less than `1` followed by twenty zeros (or
   * more) by bytes, since that run does not fit in a `usize`, and that one
   * is less than `2`, by bytes again.
   */
  lemma VersionCycle(n: nat)
    requires n >= 20
    ensures VersionCmp(['2' as int], ['1' as int, '0' as int]) == Less
    ensures VersionCmp(['1' as int, '0' as int], OneZeros(n)) == Less
    ensures VersionCmp(OneZeros(n), ['2' as int]) == Less
  {
    TwoBeforeTen();
    TenBeforeOneZeros(n);
    OneZerosBeforeTwo(n);
  }

  /**
   * The version order the comparison evidently means: the first digit runs
   * compare by value however long they are, with no fallback.
   */
  function VersionCmpUnbounded(s1: seq<Byte>, s2: seq<Byte>): Ordering {
    match ScanPrefix(s1, s2)
    case Decided(o) => o
    case AtDigits(r1, r2) => CompareInt(DigitsValue(DigitRun(r1)), DigitsValue(DigitRun(r2)))
  }

  /** Where both first runs fit in a `usize`, the two orders agree; they differ only through the fallback. */
  lemma VersionCmpFits(s1: seq<Byte>, s2: seq<Byte>)
    requires ScanPrefix(s1, s2).AtDigits? ==>
      && DigitsValue(DigitRun(ScanPrefix(s1, s2).rest1)) <= USIZE_MAX
      && DigitsValue(DigitRun(ScanPrefix(s1, s2).rest2)) <= USIZE_MAX
    ensures VersionCmp(s1, s2) == VersionCmpUnbounded(s1, s2)
  {
  }

  /** What a name is ordered by: its bytes up to the first digit, then the value of the first digit run. */
  datatype VersionToken = ByteToken(b: Byte) | NumberToken(n: nat) {
    /** Numbers sort where the digits do: between `/` and `:`. */
    function Major(): int {
      if ByteToken? then b else '0' as int
    }

    function Minor(): nat {
      if ByteToken? then 0 else n
    }
  }

  function TokenCompare(t: VersionToken, u: VersionToken): Ordering {
    CompareInt(t.Major(), u.Major()).Then(CompareInt(t.Minor(), u.Minor()))
  }

  function VersionKey(s: seq<Byte>): seq<VersionToken>
    decreases |s|
  {
    if s == [] then []
    else if IsAsciiDigit(s[0]) then [NumberToken(DigitsValue(DigitRun(s)))]
    else [ByteToken(s[0])] + VersionKey(s[1..])
  }

  function KeyCompare(k1: seq<VersionToken>, k2: seq<VersionToken>): Ordering
    decreases |k1|
  {
    if k1 == [] && k2 == [] then Equal
    else if k1 == [] then Less
    else if k2 == [] then Greater
    else TokenCompare(k1[0], k2[0]).Then(KeyCompare(k1[1..], k2[1..]))
  }

  /** The corrected version order is the lexicographic order of the keys. */
  lemma {:induction false} VersionCmpByKey(s1: seq<Byte>, s2: seq<Byte>)
    ensures VersionCmpUnbounded(s1, s2) == KeyCompare(VersionKey(s1), VersionKey(s2))
    decreases |s1|
  {
    if s1 != [] && s2 != [] && !(IsAsciiDigit(s1[0]) && IsAsciiDigit(s2[0])) && s1[0] == s2[0] {
      VersionCmpByKey(s1[1..], s2[1..]);
    }
  }

  lemma {:induction false} KeyCompareTransitive(k1: seq<VersionToken>, k2: seq<VersionToken>, k3: seq<VersionToken>)
    requires KeyCompare(k1, k2) != Greater && KeyCompare(k2, k3) != Greater
    ensures KeyCompare(k1, k3) != Greater
    decreases |k1|
  {
    if k1 != [] && k2 != [] && k3 != []
      && TokenCompare(k1[0], k2[0]) == Equal && TokenCompare(k2[0], k3[0]) == Equal
    {
      KeyCompareTransitive(k1[1..], k2[1..], k3[1..]);
    }
  }

  /** Without the fallback the version order is transitive, so it is a total preorder a sort can rely on. */
  lemma VersionCmpUnboundedTransitive(s1: seq<Byte>, s2: seq<Byte>, s3: seq<Byte>)
    requires VersionCmpUnbounded(s1, s2) != Greater && VersionCmpUnbounded(s2, s3) != Greater
    ensures VersionCmpUnbounded(s1, s3) != Greater
  {
    VersionCmpByKey(s1, s2);
    VersionCmpByKey(s2, s3);
    VersionCmpByKey(s1, s3);
    KeyCompareTransitive(VersionKey(s1), VersionKey(s2), VersionKey(s3));
  }

  /** `2` has the value two. */
  lemma TwoValue()
    ensures DigitRun(['2' as int]) == ['2' as int]
    ensures DigitsValue(['2' as int]) == 2
  {
    DigitRunAll(['2' as int]);
    DigitsValueSnoc([], '2' as int);
    assert [] + ['2' as int] == ['2' as int];
  }

  /** `10` has the value ten. */
  lemma TenValue()
    ensures DigitRun(['1' as int, '0' as int]) == ['1' as int, '0' as int]
    ensures DigitsValue(['1' as int, '0' as int]) == 10
  {
    var ten: seq<Byte> := ['1' as int, '0' as int];
    DigitRunAll(ten);
    DigitsValueSnoc([], '1' as int);
    DigitsValueSnoc(['1' as int], '0' as int);
    assert [] + ['1' as int] == ['1' as int] && ['1' as int] + ['0' as int] == ten;
  }

  /** A single digit run that does not fit in a `usize` is still greater, in the corrected order, than any one that does. */
  lemma UnboundedBeforeOneZeros(small: seq<Byte>, n: nat)
    requires n >= 20 && small != [] && IsAsciiDigit(small[0])
    requires DigitsValue(DigitRun(small)) <= USIZE_MAX
    ensures VersionCmpUnbounded(small, OneZeros(n)) == Less
  {
    OneZerosOverflow(n);
  }

  /** The three names of the cycle, in the corrected order: `2` < `10` < `1` followed by the zeros. */
  lemma VersionCycleCorrected(n: nat)
    requires n >= 20
    ensures VersionCmpUnbounded(['2' as int], ['1' as int, '0' as int]) == Less
    ensures VersionCmpUnbounded(['1' as int, '0' as int], OneZeros(n)) == Less
    ensures VersionCmpUnbounded(['2' as int], OneZeros(n)) == Less
  {
    TwoValue();
    TenValue();
    UnboundedBeforeOneZeros(['1' as int, '0' as int], n);
    UnboundedBeforeOneZeros(['2' as int], n);
  }

  // ---------------------------------------------------------------------
  // Sorting a group.

  /** The `git_order!` step: entries with change statistics first, or last when descending. */
  function GitOrder(gitChangesFirst: bool, desc: bool, a: Files.File, b: Files.File): (r: Ordering)
    ensures !gitChangesFirst ==> r == Equal
    ensures gitChangesFirst && a.gitChanges.Some? && b.gitChanges.None? ==> r == (if desc then Greater else Less)
    ensures gitChangesFirst && a.gitChanges.None? && b.gitChanges.Some? ==> r == (if desc then Less else Greater)
    ensures a.gitChanges.Some? == b.gitChanges.Some? ==> r == Equal
  {
    if !gitChangesFirst then Equal
    else
      var ord := CompareInt(if a.gitChanges.None? then 1 else 0, if b.gitChanges.None? then 1 else 0);
      if desc then ord.Reverse() else ord
  }

  /** The number a key sorts by: tree information where the job gave it, else the entry's own metadata. */
  function KeyNumber(key: Config.SortKey, f: Files.File): nat
    requires key != Config.Name && key != Config.Version
  {
    match key
    case DeepModificationTime => if f.treeInfo.Some? then f.treeInfo.value.mtime else f.metadata.mtime
    case Size => if f.treeInfo.Some? then f.treeInfo.value.diskUsage else f.metadata.len
    case ModificationTime => f.metadata.mtime
  }

  /** The comparison of the sort keys of two entries. */
  function KeyOrder(key: Config.SortKey, a: Files.File, b: Files.File): Ordering {
    match key
    case Name => LexCompare(a.fileName, b.fileName)
    case Version => VersionCmp(a.fileName, b.fileName)
    case _ => CompareInt(KeyNumber(key, a), KeyNumber(key, b)).Then(LexCompare(a.fileName, b.fileName))
  }

  /** The closure given to `sort_unstable_by` for the files of `column`. */
  function Compare(column: Config.Column, a: Files.File, b: Files.File): Ordering {
    var spec := Config.SortOf(column);
    GitOrder(column.gitChangesFirst, spec.order == Config.Desc, a, b).Then(KeyOrder(spec.key, a, b))
  }

  /** Every key but `version` breaks ties by name, so only entries of the same name compare equal. */
  lemma NameBreaksTies(key: Config.SortKey, a: Files.File, b: Files.File)
    requires key != Config.Version
    ensures KeyOrder(key, a, b) == Equal ==> a.fileName == b.fileName
  {
    LexCompareEqual(a.fileName, b.fileName);
  }

  lemma CompareAntisymmetric(column: Config.Column, a: Files.File, b: Files.File)
    ensures Compare(column, b, a) == Compare(column, a, b).Reverse()
  {
    LexCompareAntisymmetric(a.fileName, b.fileName);
    VersionCmpAntisymmetric(a.fileName, b.fileName);
  }

  /**
   * For every key but `version` the comparator is transitive: the git rank,
   * then the key's number, then the name, each compared as a total order.
   */
  lemma CompareTransitive(column: Config.Column, a: Files.File, b: Files.File, c: Files.File)
    requires Config.SortOf(column).key != Config.Version
    requires Compare(column, a, b) != Greater && Compare(column, b, c) != Greater
    ensures Compare(column, a, c) != Greater
  {
    var ab := LexCompare(a.fileName, b.fileName);
    var bc := LexCompare(b.fileName, c.fileName);
    if ab != Greater && bc != Greater {
      LexCompareTransitive(a.fileName, b.fileName, c.fileName);
    }
  }

  /** Every pair is in order, not just every pair of neighbours. */
  predicate Sorted(column: Config.Column, fs: seq<Files.File>) {
    forall i, j :: 0 <= i < j < |fs| ==> Compare(column, fs[i], fs[j]) != Greater
  }

  lemma {:induction false} AdjacentReaches(column: Config.Column, fs: seq<Files.File>, i: nat, j: nat)
    requires Config.SortOf(column).key != Config.Version && AdjacentSorted(column, fs)
    requires i < j < |fs|
    ensures Compare(column, fs[i], fs[j]) != Greater
    decreases j - i
  {
    if i + 1 < j {
      AdjacentReaches(column, fs, i + 1, j);
      CompareTransitive(column, fs[i], fs[i + 1], fs[j]);
    }
  }

  /** With a transitive comparator, neighbours in order means the whole list in order. */
  lemma AdjacentToSorted(column: Config.Column, fs: seq<Files.File>)
    requires Config.SortOf(column).key != Config.Version && AdjacentSorted(column, fs)
    ensures Sorted(column, fs)
  {
    forall i, j | 0 <= i < j < |fs| ensures Compare(column, fs[i], fs[j]) != Greater {
      AdjacentReaches(column, fs, i, j);
    }
  }

  /** No two neighbours are out of order. */
  predicate AdjacentSorted(column: Config.Column, fs: seq<Files.File>) {
    forall i :: 0 <= i < |fs| - 1 ==> Compare(column, fs[i], fs[i + 1]) != Greater
  }

  /** Every entry with change statistics comes before every entry without. */
  predicate ChangesFirst(fs: seq<Files.File>) {
    forall i, j :: 0 <= i < j < |fs| && fs[j].gitChanges.Some? ==> fs[i].gitChanges.Some?
  }

  lemma {:induction false} NoStepDown(fs: seq<Files.File>, i: nat, j: nat)
    requires forall k :: 0 <= k < |fs| - 1 ==> !(fs[k].gitChanges.None? && fs[k + 1].gitChanges.Some?)
    requires i < j < |fs| && fs[j].gitChanges.Some?
    ensures fs[i].gitChanges.Some?
    decreases j - i
  {
    if i + 1 < j {
      NoStepDown(fs, i + 1, j);
    }
  }

  lemma {:induction false} NoStepUp(fs: seq<Files.File>, i: nat, j: nat)
    requires forall k :: 0 <= k < |fs| - 1 ==> !(fs[k].gitChanges.Some? && fs[k + 1].gitChanges.None?)
    requires i < j < |fs| && fs[i].gitChanges.Some?
    ensures fs[j].gitChanges.Some?
    decreases j - i
  {
    if i + 1 < j {
      NoStepUp(fs, i, j - 1);
    }
  }

  /**
   * With `git_changes_first`, a sorted ascending group, or the reverse of a
   * group sorted by the descending comparator, has its entries with change
   * statistics first.
   */
  lemma SortedChangesFirst(column: Config.Column, sorted: seq<Files.File>)
    requires column.gitChangesFirst && AdjacentSorted(column, sorted)
    ensures Config.SortOf(column).order == Config.Asc ==> ChangesFirst(sorted)
    ensures Config.SortOf(column).order == Config.Desc ==> ChangesFirst(Reverse(sorted))
  {
    var desc := Config.SortOf(column).order == Config.Desc;
    if !desc {
      forall i, j | 0 <= i < j < |sorted| && sorted[j].gitChanges.Some? ensures sorted[i].gitChanges.Some? {
        forall k | 0 <= k < |sorted| - 1 ensures !(sorted[k].gitChanges.None? && sorted[k + 1].gitChanges.Some?) {
          assert Compare(column, sorted[k], sorted[k + 1]) != Greater;
        }
        NoStepDown(sorted, i, j);
      }
    } else {
      var r := Reverse(sorted);
      var n := |sorted|;
      forall i, j | 0 <= i < j < n && r[j].gitChanges.Some? ensures r[i].gitChanges.Some? {
        forall k | 0 <= k < n - 1 ensures !(sorted[k].gitChanges.Some? && sorted[k + 1].gitChanges.None?) {
          assert Compare(column, sorted[k], sorted[k + 1]) != Greater;
        }
        NoStepUp(sorted, n - 1 - j, n - 1 - i);
      }
    }
  }

  lemma {:induction false} ReverseMultiset<T>(s: seq<T>)
    ensures multiset(Reverse(s)) == multiset(s)
  {
    if s != [] {
      ReverseMultiset(s[1..]);
      assert s == [s[0]] + s[1..];
    }
  }

  lemma ReverseReverse<T>(s: seq<T>)
    ensures Reverse(Reverse(s)) == s
  {
  }

  /** Inserting `x` where the scan stopped keeps the neighbours in order. */
  lemma InsertSorted(column: Config.Column, sorted: seq<Files.File>, j: nat, x: Files.File)
    requires AdjacentSorted(column, sorted) && j <= |sorted|
    requires j > 0 ==> Compare(column, sorted[j - 1], x) != Greater
    requires j < |sorted| ==> Compare(column, sorted[j], x) == Greater
    ensures AdjacentSorted(column, sorted[..j] + [x] + sorted[j..])
  {
    var s := sorted[..j] + [x] + sorted[j..];
    if j < |sorted| {
      CompareAntisymmetric(column, sorted[j], x);
    }
    forall i | 0 <= i < |s| - 1 ensures Compare(column, s[i], s[i + 1]) != Greater {
      if i < j - 1 {
        assert s[i] == sorted[i] && s[i + 1] == sorted[i + 1];
      } else if i == j - 1 {
        assert s[i] == sorted[j - 1] && s[i + 1] == x;
      } else if i == j {
        assert s[i] == x && s[i + 1] == sorted[j];
      } else {
        assert s[i] == sorted[i - 1] && s[i + 1] == sorted[i];
      }
    }
  }

  /** Where `x` goes in `sorted`: after every entry not greater than it, scanning from the end. */
  method FindSlot(column: Config.Column, sorted: seq<Files.File>, x: Files.File) returns (j: nat)
    ensures j <= |sorted|
    ensures j > 0 ==> Compare(column, sorted[j - 1], x) != Greater
    ensures j < |sorted| ==> Compare(column, sorted[j], x) == Greater
  {
    j := |sorted|;
    while j > 0 && Compare(column, sorted[j - 1], x) == Greater
      invariant 0 <= j <= |sorted|
      invariant j < |sorted| ==> Compare(column, sorted[j], x) == Greater
    {
      j := j - 1;
    }
  }

  /**
   * `sort_unstable_by` with the column's comparator, as an insertion sort:
   * the result is a permutation of `fs` with no neighbours out of order.
   */
  method SortBy(column: Config.Column, fs: seq<Files.File>) returns (sorted: seq<Files.File>)
    ensures multiset(sorted) == multiset(fs)
    ensures AdjacentSorted(column, sorted)
    ensures Config.SortOf(column).key != Config.Version ==> Sorted(column, sorted)
  {
    sorted := [];
    var i := 0;
    while i < |fs|
      invariant i <= |fs|
      invariant multiset(sorted) == multiset(fs[..i])
      invariant AdjacentSorted(column, sorted)
    {
      sorted := Insert(column, sorted, fs[i]);
      assert fs[..i + 1] == fs[..i] + [fs[i]];
      i := i + 1;
    }
    assert fs[..i] == fs;
    if Config.SortOf(column).key != Config.Version {
      AdjacentToSorted(column, sorted);
    }
  }

  /** One insertion of the sort: `x` goes after every entry not greater than it. */
  method Insert(column: Config.Column, sorted: seq<Files.File>, x: Files.File) returns (sorted': seq<Files.File>)
    requires AdjacentSorted(column, sorted)
    ensures multiset(sorted') == multiset(sorted) + multiset{x}
    ensures AdjacentSorted(column, sorted')
  {
    var j := FindSlot(column, sorted, x);
    InsertSorted(column, sorted, j, x);
    InsertAdds(sorted, j, x);
    sorted' := sorted[..j] + [x] + sorted[j..];
  }

  /** Inserting `x` anywhere adds it to the files and takes none away. */
  lemma InsertAdds(fs: seq<Files.File>, j: nat, x: Files.File)
    requires j <= |fs|
    ensures multiset(fs[..j] + [x] + fs[j..]) == multiset(fs) + multiset{x}
  {
    assert fs == fs[..j] + fs[j..];
  }

  /** `reverse` on the sequence of files. */
  method ReverseFiles(fs: seq<Files.File>) returns (reversed: seq<Files.File>)
    ensures reversed == Reverse(fs)
  {
    reversed := [];
    var k := |fs|;
    while k > 0
      invariant 0 <= k <= |fs|
      invariant reversed == Reverse(fs[k..])
    {
      assert fs[k - 1..][1..] == fs[k..];
      reversed := reversed + [fs[k - 1]];
      k := k - 1;
    }
    assert fs[0..] == fs;
  }

  /**
   * What the insertion sort guarantees: every pair in order under a
   * transitive comparator, and every pair of neighbours under the version
   * comparator, which is not transitive (see `VersionCycle`).
   */
  predicate Ordered(column: Config.Column, fs: seq<Files.File>) {
    && AdjacentSorted(column, fs)
    && (Config.SortOf(column).key != Config.Version ==> Sorted(column, fs))
  }

  /** The order `sort` leaves a group of `column` in. */
  predicate Arranged(column: Config.Column, fs: seq<Files.File>) {
    && (Config.SortOf(column).order == Config.Asc ==> Ordered(column, fs))
    && (Config.SortOf(column).order == Config.Desc ==> Ordered(column, Reverse(fs)))
    && (column.gitChangesFirst ==> ChangesFirst(fs))
  }

  /**
   * `sort`: the files end up a permutation of what they were, ordered by the
   * column's comparator; a descending sort reverses the result of sorting
   * with the descending comparator. With `git_changes_first`, entries with
   * change statistics come first in either order. Equal entries may end up
   * in any order (the sort is not stable), so the order is not pinned down
   * further.
   */
  method Sort(group: Files.FilesGroup)
    modifies group
    ensures multiset(group.files) == multiset(old(group.files))
    ensures Config.SortOf(group.column).order == Config.Asc ==> Ordered(group.column, group.files)
    ensures Config.SortOf(group.column).order == Config.Desc ==> Ordered(group.column, Reverse(group.files))
    ensures group.column.gitChangesFirst ==> ChangesFirst(group.files)
  {
    var column := group.column;
    var sorted := SortBy(column, group.files);
    if column.gitChangesFirst {
      SortedChangesFirst(column, sorted);
    }
    if Config.SortOf(column).order == Config.Desc {
      var reversed := ReverseFiles(sorted);
      ReverseMultiset(sorted);
      ReverseReverse(sorted);
      group.files := reversed;
    } else {
      group.files := sorted;
    }
  }
}
