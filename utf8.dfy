/**
 * UTF-8 as defined by section 4 of RFC 3629, in the two directions the
 * program needs: the validating decoder of Rust's `str::from_utf8` (one
 * step at a time, with its `error_len` classification of a bad sequence),
 * and the encoder behind `str::as_bytes`.
 */
module Utf8 {
  import opened Common

  predicate IsContinuation(b: Byte) {
    0x80 <= b < 0xC0
  }

  /** The length of the sequence a leading byte announces; 0 for a byte that cannot lead. */
  function SequenceLength(first: Byte): nat {
    if first < 0x80 then 1
    else if first < 0xC2 then 0
    else if first < 0xE0 then 2
    else if first < 0xF0 then 3
    else if first < 0xF5 then 4
    else 0
  }

  /** The second byte of a three-byte sequence, with the ranges RFC 3629 allows after each leading byte. */
  predicate SecondOfThree(first: Byte, second: Byte) {
    || (first == 0xE0 && 0xA0 <= second < 0xC0)
    || (0xE1 <= first <= 0xEC && IsContinuation(second))
    || (first == 0xED && 0x80 <= second < 0xA0)
    || (0xEE <= first <= 0xEF && IsContinuation(second))
  }

  predicate SecondOfFour(first: Byte, second: Byte) {
    || (first == 0xF0 && 0x90 <= second < 0xC0)
    || (0xF1 <= first <= 0xF3 && IsContinuation(second))
    || (first == 0xF4 && 0x80 <= second < 0x90)
  }

  predicate IsScalarValue(n: int) {
    (0 <= n < 0xD800) || (0xE000 <= n < 0x11_0000)
  }

  /**
   * One step of the decoder: a decoded scalar and the bytes it used; or a bad
   * sequence and how many bytes of it are invalid (`Utf8Error::error_len()
   * == Some(len)`); or a sequence cut short by the end of the input
   * (`error_len() == None`).
   */
  datatype Step = Scalar(c: char, len: nat) | Invalid(len: nat) | Incomplete

  function Value2(b0: Byte, b1: Byte): (n: int)
    requires 0xC2 <= b0 < 0xE0 && IsContinuation(b1)
    ensures 0x80 <= n < 0x800
  {
    (b0 - 0xC0) * 0x40 + (b1 - 0x80)
  }

  function Value3(b0: Byte, b1: Byte, b2: Byte): (n: int)
    requires SecondOfThree(b0, b1) && IsContinuation(b2)
    ensures 0x800 <= n < 0x1_0000 && IsScalarValue(n)
  {
    (b0 - 0xE0) * 0x1000 + (b1 - 0x80) * 0x40 + (b2 - 0x80)
  }

  function Value4(b0: Byte, b1: Byte, b2: Byte, b3: Byte): (n: int)
    requires SecondOfFour(b0, b1) && IsContinuation(b2) && IsContinuation(b3)
    ensures 0x1_0000 <= n < 0x11_0000
  {
    (b0 - 0xF0) * 0x4_0000 + (b1 - 0x80) * 0x1000 + (b2 - 0x80) * 0x40 + (b3 - 0x80)
  }

  function DecodeStep(bs: seq<Byte>): (st: Step)
    requires |bs| > 0
    ensures st.Scalar? ==> 1 <= st.len <= |bs| && st.len <= 4
    ensures st.Invalid? ==> 1 <= st.len <= |bs| && st.len <= 3
    ensures st.Scalar? && st.c as int < 0x80 ==> st.len == 1 && bs[0] == st.c as int
  {
    var width := SequenceLength(bs[0]);
    if width == 1 then Scalar(bs[0] as char, 1)
    else if width == 2 then DecodeTwo(bs)
    else if width == 3 then DecodeThree(bs)
    else if width == 4 then DecodeFour(bs)
    else Invalid(1)
  }

  /** The rest of a step whose leading byte announces two bytes. */
  function DecodeTwo(bs: seq<Byte>): (st: Step)
    requires |bs| > 0 && SequenceLength(bs[0]) == 2
    ensures st.Scalar? ==> st.len == 2 <= |bs| && st.c as int >= 0x80
    ensures st.Invalid? ==> st.len == 1
  {
    if |bs| < 2 then Incomplete
    else if !IsContinuation(bs[1]) then Invalid(1)
    else Scalar(Value2(bs[0], bs[1]) as char, 2)
  }

  /** The rest of a step whose leading byte announces three bytes. */
  function DecodeThree(bs: seq<Byte>): (st: Step)
    requires |bs| > 0 && SequenceLength(bs[0]) == 3
    ensures st.Scalar? ==> st.len == 3 <= |bs| && st.c as int >= 0x80
    ensures st.Invalid? ==> 1 <= st.len <= 2 && st.len < |bs|
  {
    if |bs| < 2 then Incomplete
    else if !SecondOfThree(bs[0], bs[1]) then Invalid(1)
    else if |bs| < 3 then Incomplete
    else if !IsContinuation(bs[2]) then Invalid(2)
    else Scalar(Value3(bs[0], bs[1], bs[2]) as char, 3)
  }

  /** The rest of a step whose leading byte announces four bytes. */
  function DecodeFour(bs: seq<Byte>): (st: Step)
    requires |bs| > 0 && SequenceLength(bs[0]) == 4
    ensures st.Scalar? ==> st.len == 4 <= |bs| && st.c as int >= 0x80
    ensures st.Invalid? ==> 1 <= st.len <= 3 && st.len < |bs|
  {
    if |bs| < 2 then Incomplete
    else if !SecondOfFour(bs[0], bs[1]) then Invalid(1)
    else if |bs| < 3 then Incomplete
    else if !IsContinuation(bs[2]) then Invalid(2)
    else if |bs| < 4 then Incomplete
    else if !IsContinuation(bs[3]) then Invalid(3)
    else Scalar(Value4(bs[0], bs[1], bs[2], bs[3]) as char, 4)
  }

  /** `str::from_utf8`: the decoded text when every byte belongs to a valid sequence. */
  function Decode(bs: seq<Byte>): Option<string>
    decreases |bs|
  {
    if bs == [] then Some([])
    else match DecodeStep(bs)
      case Scalar(c, n) =>
        (match Decode(bs[n..])
         case Some(rest) => Some([c] + rest)
         case None => None)
      case _ => None
  }

  /** The UTF-8 encoding of one scalar value. */
  function Encode(c: char): (r: seq<Byte>)
    ensures 1 <= |r| <= 4
  {
    var n := c as int;
    if n < 0x80 then [n]
    else if n < 0x800 then [0xC0 + n / 0x40, 0x80 + n % 0x40]
    else if n < 0x1_0000 then [0xE0 + n / 0x1000, 0x80 + (n / 0x40) % 0x40, 0x80 + n % 0x40]
    else [0xF0 + n / 0x4_0000, 0x80 + (n / 0x1000) % 0x40, 0x80 + (n / 0x40) % 0x40, 0x80 + n % 0x40]
  }

  /** `str::as_bytes`. */
  function EncodeString(s: string): (r: seq<Byte>)
    ensures |r| >= |s|
  {
    if s == [] then [] else Encode(s[0]) + EncodeString(s[1..])
  }

  /** A zero byte appears in an encoding only for the character U+0000. */
  lemma EncodeHasNoZero(c: char)
    requires c != '\0'
    ensures forall i :: 0 <= i < |Encode(c)| ==> Encode(c)[i] != 0
  {
  }

  lemma {:induction false} EncodeStringHasNoZero(s: string)
    requires forall i :: 0 <= i < |s| ==> s[i] != '\0'
    ensures forall i :: 0 <= i < |EncodeString(s)| ==> EncodeString(s)[i] != 0
  {
    if s != [] {
      EncodeHasNoZero(s[0]);
      EncodeStringHasNoZero(s[1..]);
    }
  }

  /** The decoder reads back exactly the character an encoding holds, whatever follows it. */
  lemma DecodeStepEncode(c: char, rest: seq<Byte>)
    ensures DecodeStep(Encode(c) + rest) == Scalar(c, |Encode(c)|)
  {
    var n := c as int;
    if n < 0x80 {
    } else if n < 0x800 {
      DecodeStepEncode2(c, rest);
    } else if n < 0x1_0000 {
      DecodeStepEncode3(c, rest);
    } else {
      DecodeStepEncode4(c, rest);
    }
  }

  lemma DecodeStepEncode2(c: char, rest: seq<Byte>)
    requires 0x80 <= c as int < 0x800
    ensures DecodeStep(Encode(c) + rest) == Scalar(c, |Encode(c)|)
  {
    var n := c as int;
    var bs := Encode(c) + rest;
    assert bs[0] == 0xC0 + n / 0x40 && bs[1] == 0x80 + n % 0x40;
    assert Value2(bs[0], bs[1]) == n;
  }

  lemma DecodeStepEncode3(c: char, rest: seq<Byte>)
    requires 0x800 <= c as int < 0x1_0000
    ensures DecodeStep(Encode(c) + rest) == Scalar(c, |Encode(c)|)
  {
    var n := c as int;
    var bs := Encode(c) + rest;
    assert bs[0] == 0xE0 + n / 0x1000 && bs[1] == 0x80 + (n / 0x40) % 0x40 && bs[2] == 0x80 + n % 0x40;
    assert n / 0x40 == (n / 0x1000) * 0x40 + (n / 0x40) % 0x40;
    assert Value3(bs[0], bs[1], bs[2]) == n;
  }

  lemma DecodeStepEncode4(c: char, rest: seq<Byte>)
    requires 0x1_0000 <= c as int
    ensures DecodeStep(Encode(c) + rest) == Scalar(c, |Encode(c)|)
  {
    var n := c as int;
    var bs := Encode(c) + rest;
    assert bs[0] == 0xF0 + n / 0x4_0000;
    assert bs[1] == 0x80 + (n / 0x1000) % 0x40;
    assert bs[2] == 0x80 + (n / 0x40) % 0x40 && bs[3] == 0x80 + n % 0x40;
    assert n / 0x1000 == (n / 0x4_0000) * 0x40 + (n / 0x1000) % 0x40;
    assert n / 0x40 == (n / 0x1000) * 0x40 + (n / 0x40) % 0x40;
    assert Value4(bs[0], bs[1], bs[2], bs[3]) == n;
  }

  /** Round trip: decoding the encoding of a string gives the string back. */
  lemma {:induction false} DecodeEncodeString(s: string)
    ensures Decode(EncodeString(s)) == Some(s)
  {
    if s != [] {
      var e := Encode(s[0]);
      var bs := EncodeString(s);
      assert bs == e + EncodeString(s[1..]);
      DecodeStepEncode(s[0], EncodeString(s[1..]));
      assert bs[|e|..] == EncodeString(s[1..]);
      DecodeEncodeString(s[1..]);
      assert Decode(bs) == Some([s[0]] + s[1..]);
      assert s == [s[0]] + s[1..];
    }
  }

  /** A byte below 128 is a sequence of its own. */
  lemma DecodeStepAscii(bs: seq<Byte>)
    requires |bs| > 0 && bs[0] < 0x80
    ensures DecodeStep(bs) == Scalar(bs[0] as char, 1)
  {
  }

  /** Bytes below 128 are each a one-byte sequence: such input always decodes, character for byte. */
  lemma {:induction false} DecodeAscii(bs: seq<Byte>)
    requires forall i :: 0 <= i < |bs| ==> bs[i] < 0x80
    ensures Decode(bs).Some?
    ensures |Decode(bs).value| == |bs|
    ensures forall i :: 0 <= i < |bs| ==> Decode(bs).value[i] as int == bs[i]
  {
    if bs != [] {
      DecodeAscii(bs[1..]);
    }
  }
}
