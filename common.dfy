/**
 * Values shared by every part of the model: optional values, three-way
 * orderings, bytes, the unsigned integer widths of the original program,
 * byte-wise lexicographic order (how an `OsStr` compares on unix) and
 * decimal rendering of numbers (what `format!("{}", n)` prints).
 */
module Common {

  datatype Option<+T> = None | Some(value: T) {
    function GetOr(default: T): T {
      match this
      case Some(v) => v
      case None => default
    }

    function Or(other: Option<T>): Option<T> {
      if Some? then this else other
    }
  }

  /** The result of a three-way comparison (`std::cmp::Ordering`). */
  datatype Ordering = Less | Equal | Greater {
    function Reverse(): Ordering {
      match this
      case Less => Greater
      case Equal => Equal
      case Greater => Less
    }

    /** `Ordering::then`: the second comparison breaks ties of the first. */
    function Then(other: Ordering): Ordering {
      if Equal? then other else this
    }
  }

  type Byte = b: int | 0 <= b < 0x100

  const U32_LIMIT: nat := 0x1_0000_0000
  const U64_LIMIT: nat := 0x1_0000_0000_0000_0000
  /** `usize::MAX` on a 64-bit target. */
  const USIZE_MAX: nat := U64_LIMIT - 1

  type U32 = n: nat | n < U32_LIMIT

  /** Addition of two `u32` values as a release build performs it (wrapping). */
  function AddU32(a: U32, b: U32): U32 {
    (a + b) % U32_LIMIT
  }

  function Max(a: nat, b: nat): nat {
    if a < b then b else a
  }

  function Min(a: nat, b: nat): nat {
    if a < b then a else b
  }

  function CompareInt(a: int, b: int): Ordering {
    if a < b then Less else if a == b then Equal else Greater
  }

  /** Lexicographic order on byte strings: the shorter of two strings sorts first when it is a prefix of the other. */
  function LexCompare(a: seq<Byte>, b: seq<Byte>): Ordering
    decreases |a|
  {
    if |a| == 0 && |b| == 0 then Equal
    else if |a| == 0 then Less
    else if |b| == 0 then Greater
    else if a[0] != b[0] then CompareInt(a[0], b[0])
    else LexCompare(a[1..], b[1..])
  }

  lemma {:induction false} LexCompareEqual(a: seq<Byte>, b: seq<Byte>)
    ensures LexCompare(a, b) == Equal <==> a == b
    decreases |a|
  {
    if |a| > 0 && |b| > 0 && a[0] == b[0] {
      LexCompareEqual(a[1..], b[1..]);
      assert a == [a[0]] + a[1..] && b == [b[0]] + b[1..];
    }
  }

  lemma {:induction false} LexCompareAntisymmetric(a: seq<Byte>, b: seq<Byte>)
    ensures LexCompare(b, a) == LexCompare(a, b).Reverse()
    decreases |a|
  {
    if |a| > 0 && |b| > 0 && a[0] == b[0] {
      LexCompareAntisymmetric(a[1..], b[1..]);
    }
  }

  lemma {:induction false} LexCompareTransitive(a: seq<Byte>, b: seq<Byte>, c: seq<Byte>)
    requires LexCompare(a, b) != Greater && LexCompare(b, c) != Greater
    ensures LexCompare(a, c) != Greater
    decreases |a|
  {
    if |a| > 0 && |b| > 0 && |c| > 0 && a[0] == b[0] == c[0] {
      LexCompareTransitive(a[1..], b[1..], c[1..]);
    }
  }

  function Reverse<T>(s: seq<T>): (r: seq<T>)
    ensures |r| == |s|
    ensures forall i :: 0 <= i < |s| ==> r[i] == s[|s| - 1 - i]
  {
    if s == [] then [] else Reverse(s[1..]) + [s[0]]
  }

  function DigitChar(d: nat): char
    requires d < 10
  {
    ('0' as int + d) as char
  }

  /** The decimal representation of `n`, without sign or leading zeros. */
  function DecimalString(n: nat): (r: string)
    ensures |r| > 0
    ensures forall i :: 0 <= i < |r| ==> '0' <= r[i] <= '9'
    ensures |r| > 1 ==> r[0] != '0'
  {
    if n < 10 then [DigitChar(n)] else DecimalString(n / 10) + [DigitChar(n % 10)]
  }

  predicate IsAsciiDigit(b: Byte) {
    '0' as int <= b <= '9' as int
  }

  /** The value of a run of decimal digits. */
  function DigitsValue(ds: seq<Byte>): nat
    requires forall i :: 0 <= i < |ds| ==> IsAsciiDigit(ds[i])
  {
    if ds == [] then 0
    else
      assert IsAsciiDigit(ds[|ds| - 1]);
      DigitsValue(ds[..|ds| - 1]) * 10 + (ds[|ds| - 1] - '0' as int)
  }

  /** The ASCII bytes of a string literal whose characters are all below 128. */
  function AsciiBytes(s: string): (r: seq<Byte>)
    requires forall i :: 0 <= i < |s| ==> s[i] as int < 0x80
    ensures |r| == |s|
    ensures forall i :: 0 <= i < |s| ==> r[i] == s[i] as int
  {
    if s == [] then [] else [s[0] as int as Byte] + AsciiBytes(s[1..])
  }

  lemma {:induction false} AsciiBytesConcat(s: string, t: string)
    requires forall i :: 0 <= i < |s| ==> s[i] as int < 0x80
    requires forall i :: 0 <= i < |t| ==> t[i] as int < 0x80
    ensures AsciiBytes(s + t) == AsciiBytes(s) + AsciiBytes(t)
  {
    if s != [] {
      assert (s + t)[1..] == s[1..] + t;
      AsciiBytesConcat(s[1..], t);
    }
  }

  /** The bytes of `DecimalString(n)`. */
  function DecimalBytes(n: nat): (r: seq<Byte>)
    ensures |r| > 0
    ensures forall i :: 0 <= i < |r| ==> IsAsciiDigit(r[i])
  {
    AsciiBytes(DecimalString(n))
  }

  lemma {:induction false} DecimalBytesValue(n: nat)
    ensures DigitsValue(DecimalBytes(n)) == n
    decreases n
  {
    var r := DecimalBytes(n);
    if n >= 10 {
      DecimalBytesValue(n / 10);
      var p := DecimalBytes(n / 10);
      assert DecimalString(n) == DecimalString(n / 10) + [DigitChar(n % 10)];
      assert r == p + [('0' as int + n % 10) as Byte];
      assert r[..|r| - 1] == p;
    }
  }
}
