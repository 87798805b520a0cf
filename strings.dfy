/**
 * `QuotedString`: a file name, an arbitrary byte string on unix, printed as
 * text. Characters below the space and bytes that are not part of valid
 * UTF-8 are shown as `\xNN` escapes; the output can be limited to a maximum
 * width, measured in terminal columns, and the object remembers whether the
 * limit cut the output short.
 */
module Strings {
  import opened Common
  import opened Utf8
  import opened Escapes
  import Config

  /** The lower bound of the byte range the fast path prints verbatim, as written: decimal 20. */
  const FAST_LOW_AS_WRITTEN: Byte := 20

  /** The lower bound the fast path evidently means: the space, 0x20. */
  const FAST_LOW: Byte := 0x20

  /** `write_str!` on one character: those below the space are escaped by their code. */
  function UnitOfChar(c: char): (u: Unit)
    ensures u.Hex? <==> c < ' '
    ensures u.Shown? ==> u.c == c
    ensures u.Hex? ==> u.v == c as int
  {
    if c < ' ' then Hex(c as int) else Shown(c)
  }

  /** The escapes of a run of invalid bytes, one per byte. */
  function HexAll(bs: seq<Byte>): (us: seq<Unit>)
    ensures |us| == |bs|
    ensures forall i :: 0 <= i < |bs| ==> us[i] == Hex(bs[i])
  {
    seq(|bs|, i requires 0 <= i < |bs| => Hex(bs[i]))
  }

  /**
   * Everything the slow path would write for `bs`, without a width limit:
   * each decoding step gives either one character or, for an invalid
   * sequence, the escapes of its bytes; an incomplete sequence at the end
   * (`error_len() == None`) escapes all the remaining bytes.
   */
  function Units(bs: seq<Byte>): seq<Unit>
    decreases |bs|
  {
    if bs == [] then []
    else
      var step := NextUnits(bs);
      step.0 + Units(step.1)
  }

  /** The slow path's output and whether it set the truncation flag. */
  function Slow(bs: seq<Byte>, maxWidth: Option<Config.NonZero>, charWidth: CharWidth): (string, bool) {
    SlowUnits(Units(bs), maxWidth, charWidth)
  }

  /** The check of `try_write_unquoted`: every byte in `low..128`. */
  predicate InFastRange(bs: seq<Byte>, low: Byte) {
    forall i :: 0 <= i < |bs| ==> low <= bs[i] < 128
  }

  /** The bytes as characters, one for one (they are ASCII on the fast path). */
  function Chars(bs: seq<Byte>): (s: string)
    ensures |s| == |bs|
    ensures forall i :: 0 <= i < |bs| ==> s[i] as int == bs[i]
  {
    seq(|bs|, i requires 0 <= i < |bs| => bs[i] as char)
  }

  /** The fast path's output: all bytes, or the first `max - 1` when there are more than `max`. */
  function Fast(bs: seq<Byte>, maxWidth: Option<Config.NonZero>): (string, bool) {
    if maxWidth.Some? && maxWidth.value < |bs| then (Chars(bs[..maxWidth.value - 1]), true)
    else (Chars(bs), false)
  }

  /**
   * `Display::fmt` on unix with `low` as the fast path's lower bound: the
   * text written and whether the truncation flag is set by it.
   */
  function Format(bs: seq<Byte>, maxWidth: Option<Config.NonZero>, charWidth: CharWidth, low: Byte): (string, bool) {
    if InFastRange(bs, low) then Fast(bs, maxWidth) else Slow(bs, maxWidth, charWidth)
  }

  /** `QuotedString`. The truncation flag is a `Cell`: `fmt` sets it and nothing clears it. */
  class QuotedString {
    const bytes: seq<Byte>
    const maxWidth: Option<Config.NonZero>
    var truncated: bool

    /** `QuotedString::new`. */
    constructor(bytes: seq<Byte>, maxWidth: Option<Config.NonZero>)
      ensures this.bytes == bytes && this.maxWidth == maxWidth && !truncated
    {
      this.bytes := bytes;
      this.maxWidth := maxWidth;
      truncated := false;
    }

    /** `is_truncated`. */
    function IsTruncated(): bool
      reads this
    {
      truncated
    }

    /** `try_write_unquoted`: `ok` is false, and nothing is written, unless every byte is in `20..128`. */
    method TryWriteUnquoted() returns (ok: bool, out: string)
      modifies this
      ensures ok <==> InFastRange(bytes, FAST_LOW_AS_WRITTEN)
      ensures ok ==> out == Fast(bytes, maxWidth).0 && truncated == (old(truncated) || Fast(bytes, maxWidth).1)
      ensures !ok ==> out == [] && truncated == old(truncated)
    {
      var i := 0;
      while i < |bytes|
        invariant i <= |bytes|
        invariant forall j :: 0 <= j < i ==> FAST_LOW_AS_WRITTEN <= bytes[j] < 128
      {
        if !(FAST_LOW_AS_WRITTEN <= bytes[i] < 128) {
          return false, [];
        }
        i := i + 1;
      }
      ok := true;
      if maxWidth.Some? && maxWidth.value < |bytes| {
        out := Chars(bytes[..maxWidth.value - 1]);
        truncated := true;
      } else {
        out := Chars(bytes);
      }
    }

    /** `Display::fmt` on unix: the fast path, else the escaping loop over the decoding steps. */
    method Fmt(charWidth: CharWidth) returns (out: string)
      modifies this
      ensures out == Format(bytes, maxWidth, charWidth, FAST_LOW_AS_WRITTEN).0
      ensures truncated == (old(truncated) || Format(bytes, maxWidth, charWidth, FAST_LOW_AS_WRITTEN).1)
    {
      var ok;
      ok, out := TryWriteUnquoted();
      if ok {
        return;
      }
      var stopped;
      out, stopped := WriteSlow(bytes, maxWidth, charWidth);
      if stopped {
        truncated := true;
      }
    }
  }

  /**
   * One round of the escaping loop: the first decoding step's units (a
   * character, or the escapes of an invalid or incomplete sequence) and the
   * bytes after them.
   */
  function NextUnits(rest: seq<Byte>): (r: (seq<Unit>, seq<Byte>))
    requires rest != []
    ensures r.0 != [] && |r.1| < |rest|
  {
    match DecodeStep(rest)
    case Scalar(c, n) => ([UnitOfChar(c)], rest[n..])
    case Invalid(n) => (HexAll(rest[..n]), rest[n..])
    case Incomplete => (HexAll(rest), [])
  }

  /**
   * The escaping loop from `rest` on with `width` columns left: round by
   * round, the units of a decoding step are written while they fit, and
   * the first that does not ends the output with the flag set.
   */
  function SlowFrom(rest: seq<Byte>, width: Option<nat>, charWidth: CharWidth): (string, bool)
    requires width.Some? ==> width.value >= 1
    decreases |rest|
  {
    if rest == [] then ([], false)
    else
      var (units, next) := NextUnits(rest);
      if width.None? then
        var (text, cut) := SlowFrom(next, None, charWidth);
        (Render(units) + text, cut)
      else
        var k := Fit(units, width.value, charWidth);
        if k < |units| then (Render(units[..k]), true)
        else
          FitConcatAll(units, [], width.value, charWidth);
          var (text, cut) := SlowFrom(next, Some(width.value - TotalWidth(units, charWidth)), charWidth);
          (Render(units) + text, cut)
  }

  /** The escaping loop of `fmt`, one decoding step at a time; `stopped` is when it sets the flag. */
  method WriteSlow(bytes: seq<Byte>, maxWidth: Option<Config.NonZero>, charWidth: CharWidth)
    returns (out: string, stopped: bool)
    ensures (out, stopped) == Slow(bytes, maxWidth, charWidth)
  {
    var width: Option<nat> := if maxWidth.Some? then Some(maxWidth.value) else None;
    out, stopped := WriteFrom(bytes, width, charWidth);
    SlowFromUnits(bytes, width, charWidth);
  }

  /** The loop of `WriteSlow`, from the start of `bytes` with `width` columns left. */
  method WriteFrom(bytes: seq<Byte>, width: Option<nat>, charWidth: CharWidth) returns (out: string, stopped: bool)
    requires width.Some? ==> width.value >= 1
    ensures (out, stopped) == SlowFrom(bytes, width, charWidth)
  {
    var rest := bytes;
    var left := width;
    ghost var whole := SlowFrom(bytes, left, charWidth);
    out := [];
    assert whole.0 == out + SlowFrom(rest, left, charWidth).0;
    while rest != []
      invariant left.Some? ==> left.value >= 1
      invariant whole.0 == out + SlowFrom(rest, left, charWidth).0
      invariant whole.1 == SlowFrom(rest, left, charWidth).1
      decreases |rest|
    {
      var text, left', next, halted := WriteRound(rest, left, charWidth);
      if halted {
        return out + text, true;
      }
      ghost var tail := SlowFrom(next, left', charWidth);
      assert SlowFrom(rest, left, charWidth) == (text + tail.0, tail.1);
      assert out + (text + tail.0) == (out + text) + tail.0;
      out := out + text;
      left := left';
      rest := next;
    }
    assert SlowFrom(rest, left, charWidth) == ([], false);
    assert out + [] == out;
    stopped := false;
  }

  /** One round of the escaping loop: the units of the first decoding step written while they fit. */
  method WriteRound(rest: seq<Byte>, width: Option<nat>, charWidth: CharWidth)
    returns (text: string, width': Option<nat>, next: seq<Byte>, halted: bool)
    requires rest != []
    requires width.Some? ==> width.value >= 1
    ensures halted ==> SlowFrom(rest, width, charWidth) == (text, true)
    ensures !halted ==> width'.Some? == width.Some? && (width'.Some? ==> width'.value >= 1) && |next| < |rest|
    ensures !halted ==> SlowFrom(rest, width, charWidth) == (text + SlowFrom(next, width', charWidth).0, SlowFrom(next, width', charWidth).1)
  {
    var step := NextUnits(rest);
    var units := step.0;
    next := step.1;
    text, width', halted := WriteUnits(units, width, charWidth);
    assert units[..|units|] == units;
    if width.None? {
      SlowFromUnlimited(rest, charWidth);
    } else if halted {
      SlowFromStep(rest, width.value, charWidth);
    } else {
      SlowFromWhole(rest, width.value, width'.value, charWidth, SlowFrom(next, width', charWidth));
    }
  }

  /** One round of the slow path without a width: the round's text, then the rest. */
  lemma SlowFromUnlimited(rest: seq<Byte>, charWidth: CharWidth)
    requires rest != []
    ensures var (units, next) := NextUnits(rest);
      SlowFrom(rest, None, charWidth) == (Render(units) + SlowFrom(next, None, charWidth).0, SlowFrom(next, None, charWidth).1)
  {
  }

  /** The loop gives the slow path's result: the longest run of units that fits, by the budget rule. */
  lemma SlowFromUnits(rest: seq<Byte>, width: Option<nat>, charWidth: CharWidth)
    requires width.Some? ==> width.value >= 1
    ensures width.None? ==> SlowFrom(rest, width, charWidth) == (Render(Units(rest)), false)
    ensures width.Some? ==>
      var k := Fit(Units(rest), width.value, charWidth);
      SlowFrom(rest, width, charWidth) == (Render(Units(rest)[..k]), k < |Units(rest)|)
  {
    if width.None? {
      SlowFromAll(rest, charWidth);
    } else {
      SlowFromBudget(rest, width.value, charWidth);
      assert Budget(Units(rest), width.value, charWidth) == (Render(Units(rest)[..Fit(Units(rest), width.value, charWidth)]), Fit(Units(rest), width.value, charWidth) < |Units(rest)|);
    }
  }

  lemma {:induction false} SlowFromAll(rest: seq<Byte>, charWidth: CharWidth)
    ensures SlowFrom(rest, None, charWidth) == (Render(Units(rest)), false)
    decreases |rest|
  {
    if rest != [] {
      var (units, next) := NextUnits(rest);
      SlowFromAll(next, charWidth);
      RenderConcat(units, Units(next));
    }
  }

  lemma {:induction false} SlowFromBudget(rest: seq<Byte>, width: nat, charWidth: CharWidth)
    requires width >= 1
    ensures SlowFrom(rest, Some(width), charWidth) == Budget(Units(rest), width, charWidth)
    decreases |rest|
  {
    if rest != [] {
      var step := NextUnits(rest);
      var units, next := step.0, step.1;
      SlowFromStep(rest, width, charWidth);
      var after := Units(next);
      assert Units(rest) == units + after;
      if Fit(units, width, charWidth) < |units| {
        BudgetCut(units, after, width, charWidth);
        assert SlowFrom(rest, Some(width), charWidth) == (Render(units[..Fit(units, width, charWidth)]), true);
      } else {
        var left: nat := width - TotalWidth(units, charWidth);
        SlowFromBudget(next, left, charWidth);
        var tail := SlowFrom(next, Some(left), charWidth);
        BudgetWhole(units, after, width, left, charWidth, tail);
        SlowFromWhole(rest, width, left, charWidth, tail);
      }
    }
  }

  /** One round of the escaping loop with a budget, as `SlowFrom` defines it. */
  lemma SlowFromStep(rest: seq<Byte>, width: nat, charWidth: CharWidth)
    requires rest != [] && width >= 1
    ensures var units := NextUnits(rest).0;
      Fit(units, width, charWidth) < |units| ==>
        SlowFrom(rest, Some(width), charWidth) == (Render(units[..Fit(units, width, charWidth)]), true)
    ensures var units := NextUnits(rest).0;
      Fit(units, width, charWidth) == |units| ==> TotalWidth(units, charWidth) < width
  {
    var units := NextUnits(rest).0;
    if Fit(units, width, charWidth) == |units| {
      FitConcatAll(units, [], width, charWidth);
    }
  }

  /** A round whose units all fit: they are written, and the loop goes on with the budget they leave. */
  lemma SlowFromWhole(rest: seq<Byte>, width: nat, left: nat, charWidth: CharWidth, tail: (string, bool))
    requires rest != [] && width >= 1 && left >= 1
    requires Fit(NextUnits(rest).0, width, charWidth) == |NextUnits(rest).0|
    requires left == width - TotalWidth(NextUnits(rest).0, charWidth)
    requires tail == SlowFrom(NextUnits(rest).1, Some(left), charWidth)
    ensures SlowFrom(rest, Some(width), charWidth) == (Render(NextUnits(rest).0) + tail.0, tail.1)
  {
    FitConcatAll(NextUnits(rest).0, [], width, charWidth);
  }

  /** What the budget rule writes of `us`: the units that fit, and whether some were left out. */
  function Budget(us: seq<Unit>, width: nat, charWidth: CharWidth): (string, bool) {
    var k := Fit(us, width, charWidth);
    (Render(us[..k]), k < |us|)
  }

  /** The budget ends inside the units of one step: nothing after them is written. */
  lemma BudgetCut(units: seq<Unit>, after: seq<Unit>, width: nat, charWidth: CharWidth)
    requires Fit(units, width, charWidth) < |units|
    ensures (Render(units[..Fit(units, width, charWidth)]), true) == Budget(units + after, width, charWidth)
  {
    CutInside(units, after, width, charWidth);
  }

  /** The units of one step all fit: the rest is written with the budget they leave. */
  lemma BudgetWhole(units: seq<Unit>, after: seq<Unit>, width: nat, left: nat, charWidth: CharWidth, tail: (string, bool))
    requires units != [] && Fit(units, width, charWidth) == |units|
    requires left == width - TotalWidth(units, charWidth)
    requires tail == Budget(after, left, charWidth)
    ensures (Render(units) + tail.0, tail.1) == Budget(units + after, width, charWidth)
  {
    FitsWhole(units, after, width, charWidth);
  }

  /** The slow path shows only characters at or above the space; everything below is escaped. */
  lemma {:induction false} UnitsShowPrintable(bs: seq<Byte>)
    ensures ShowsPrintable(Units(bs))
    decreases |bs|
  {
    if bs != [] {
      match DecodeStep(bs)
      case Scalar(c, n) =>
        UnitsShowPrintable(bs[n..]);
        ShowsPrintableConcat([UnitOfChar(c)], Units(bs[n..]));
      case Invalid(n) =>
        UnitsShowPrintable(bs[n..]);
        ShowsPrintableConcat(HexAll(bs[..n]), Units(bs[n..]));
      case Incomplete =>
    }
  }

  lemma ShowsPrintableConcat(a: seq<Unit>, b: seq<Unit>)
    requires ShowsPrintable(a) && ShowsPrintable(b)
    ensures ShowsPrintable(a + b)
  {
    forall i | 0 <= i < |a + b| && (a + b)[i].Shown?
      ensures (a + b)[i].c >= ' '
    {
      if i >= |a| {
        assert (a + b)[i] == b[i - |a|];
      }
    }
  }

  /** Printable ASCII decodes byte by byte into characters shown as they are. */
  lemma {:induction false} UnitsOfPrintableAscii(bs: seq<Byte>)
    requires InFastRange(bs, FAST_LOW)
    ensures Render(Units(bs)) == Chars(bs)
    decreases |bs|
  {
    if bs != [] {
      assert InFastRange(bs[1..], FAST_LOW) by {
        forall i | 0 <= i < |bs[1..]| ensures FAST_LOW <= bs[1..][i] < 128 {
          assert bs[1..][i] == bs[i + 1];
        }
      }
      UnitsOfPrintableAscii(bs[1..]);
      UnitsPrintableHead(bs);
      RenderShownCons(bs[0] as char, Units(bs[1..]));
      assert Chars(bs) == [bs[0] as char] + Chars(bs[1..]);
    }
  }

  /** A printable ASCII byte at the front decodes to the character it stands for, shown as it is. */
  lemma UnitsPrintableHead(bs: seq<Byte>)
    requires bs != [] && FAST_LOW <= bs[0] < 128
    ensures Units(bs) == [Shown(bs[0] as char)] + Units(bs[1..])
  {
    DecodeStepAscii(bs);
  }

  lemma RenderShownCons(c: char, rest: seq<Unit>)
    ensures Render([Shown(c)] + rest) == [c] + Render(rest)
  {
    assert ([Shown(c)] + rest)[1..] == rest;
  }

  /**
   * With the fast path's range starting at the space, the output never holds
   * a control character: the fast path only lets printable ASCII through and
   * the slow path escapes everything below the space.
   */
  lemma FormatNoControl(bs: seq<Byte>, maxWidth: Option<Config.NonZero>, charWidth: CharWidth)
    ensures NoControl(Format(bs, maxWidth, charWidth, FAST_LOW).0)
  {
    if InFastRange(bs, FAST_LOW) {
      var out := Fast(bs, maxWidth).0;
      forall i | 0 <= i < |out| ensures out[i] >= ' ' {
        if maxWidth.Some? && maxWidth.value < |bs| {
          assert out[i] as int == bs[..maxWidth.value - 1][i] == bs[i];
        }
      }
    } else {
      var us := Units(bs);
      UnitsShowPrintable(bs);
      if maxWidth.None? {
        RenderNoControl(us);
      } else {
        var k := Fit(us, maxWidth.value, charWidth);
        assert ShowsPrintable(us[..k]) by {
          forall i | 0 <= i < k ensures us[..k][i] == us[i] { }
        }
        RenderNoControl(us[..k]);
      }
    }
  }

  /**
   * The fast path is only a shortcut: with its range starting at the space
   * and no width limit, every string is printed exactly as the escaping loop
   * prints it, and never marked truncated.
   */
  lemma FormatIsEscaping(bs: seq<Byte>, charWidth: CharWidth)
    ensures Format(bs, None, charWidth, FAST_LOW) == (Render(Units(bs)), false)
  {
    if InFastRange(bs, FAST_LOW) {
      UnitsOfPrintableAscii(bs);
    }
  }

  /**
   * As written, the fast path's range starts at decimal 20, so the bytes
   * 0x14 to 0x1F reach the terminal raw: an escape character (0x1B) alone is
   * printed as itself where the escaping loop writes `\x1B`.
   */
  lemma FastPathLetsEscapeThrough(charWidth: CharWidth)
    ensures Format([0x1B], None, charWidth, FAST_LOW_AS_WRITTEN).0 == ['\U{1B}']
    ensures !NoControl(Format([0x1B], None, charWidth, FAST_LOW_AS_WRITTEN).0)
    ensures Render(Units([0x1B])) == ['\\', 'x', '1', 'B']
  {
    assert InFastRange([0x1B], FAST_LOW_AS_WRITTEN);
    assert DecodeStep([0x1B]) == Scalar('\U{1B}', 1);
    assert [0x1B][1..] == [];
    assert Units([0x1B]) == [Hex(0x1B)];
    assert [Hex(0x1B)][..0] == [];
  }

  /** No byte of `bs` lies between the two lower bounds: none in 0x14..0x1F. */
  predicate NoLowControl(bs: seq<Byte>) {
    forall i :: 0 <= i < |bs| ==> !(FAST_LOW_AS_WRITTEN <= bs[i] < FAST_LOW)
  }

  /**
   * The two ranges only differ on the bytes 0x14 to 0x1F: a string without
   * any of them is formatted the same way by the program as written and by
   * the corrected one.
   */
  lemma FormatAsWrittenAgrees(bs: seq<Byte>, maxWidth: Option<Config.NonZero>, charWidth: CharWidth)
    requires NoLowControl(bs)
    ensures Format(bs, maxWidth, charWidth, FAST_LOW_AS_WRITTEN) == Format(bs, maxWidth, charWidth, FAST_LOW)
  {
    assert InFastRange(bs, FAST_LOW_AS_WRITTEN) <==> InFastRange(bs, FAST_LOW);
  }

  /**
   * The fast path with a limit: strings no longer than the limit are written
   * whole, longer ones lose all but their first `max - 1` bytes and set the
   * flag.
   */
  lemma FastPathCut(bs: seq<Byte>, max: Config.NonZero)
    ensures |bs| <= max ==> Fast(bs, Some(max)) == (Chars(bs), false)
    ensures |bs| > max ==>
      && Fast(bs, Some(max)).1
      && |Fast(bs, Some(max)).0| == max - 1
      && Fast(bs, Some(max)).0 <= Chars(bs)
  {
  }

  /** `quote_strings`: control characters in valid text are escaped one by one. */
  lemma ExampleControls(charWidth: CharWidth)
    ensures Format([0x61, 0x0A, 0x00, 0x11, 0x62], None, charWidth, FAST_LOW_AS_WRITTEN)
         == (['a', '\\', 'x', '0', 'A', '\\', 'x', '0', '0', '\\', 'x', '1', '1', 'b'], false)
  {
    var bs := [0x61, 0x0A, 0x00, 0x11, 0x62];
    assert !InFastRange(bs, FAST_LOW_AS_WRITTEN) by { assert bs[1] == 0x0A; }
    var us := ExampleControlsUnits();
    ExampleControlsText(us);
  }

  lemma ExampleControlsText(us: seq<Unit>)
    requires us == [Shown('a'), Hex(0x0A), Hex(0x00), Hex(0x11), Shown('b')]
    ensures Render(us) == ['a', '\\', 'x', '0', 'A', '\\', 'x', '0', '0', '\\', 'x', '1', '1', 'b']
  {
    RenderFive(us);
    ControlTexts();
    ControlPieces();
  }

  /** Five units render as their five texts, in order. */
  lemma RenderFive(us: seq<Unit>)
    requires |us| == 5
    ensures Render(us) == UnitText(us[0]) + (UnitText(us[1]) + (UnitText(us[2]) + (UnitText(us[3]) + UnitText(us[4]))))
  {
    RenderAt(us, 0); RenderAt(us, 1); RenderAt(us, 2); RenderAt(us, 3); RenderAt(us, 4);
    assert us[0..] == us && us[5..] == [];
    assert UnitText(us[4]) + [] == UnitText(us[4]);
  }

  lemma ControlTexts()
    ensures UnitText(Hex(0x0A)) == ['\\', 'x', '0', 'A']
    ensures UnitText(Hex(0x00)) == ['\\', 'x', '0', '0']
    ensures UnitText(Hex(0x11)) == ['\\', 'x', '1', '1']
  {
  }

  lemma ControlPieces()
    ensures ['a'] + (['\\', 'x', '0', 'A'] + (['\\', 'x', '0', '0'] + (['\\', 'x', '1', '1'] + ['b'])))
      == ['a', '\\', 'x', '0', 'A', '\\', 'x', '0', '0', '\\', 'x', '1', '1', 'b']
  {
  }

  lemma ExampleControlsUnits() returns (us: seq<Unit>)
    ensures us == [Shown('a'), Hex(0x0A), Hex(0x00), Hex(0x11), Shown('b')]
    ensures Units([0x61, 0x0A, 0x00, 0x11, 0x62]) == us
  {
    var bs := [0x61, 0x0A, 0x00, 0x11, 0x62];
    UnitsStep(bs, 1);
    UnitsStep(bs[1..], 1);
    UnitsStep(bs[2..], 1);
    UnitsStep(bs[3..], 1);
    UnitsStep(bs[4..], 1);
    assert bs[1..][1..] == bs[2..] && bs[2..][1..] == bs[3..] && bs[3..][1..] == bs[4..] && bs[4..][1..] == [];
    us := [Shown('a'), Hex(0x0A), Hex(0x00), Hex(0x11), Shown('b')];
  }

  /** `Render` from position `i` on: the unit there, then the rest. */
  lemma RenderAt(us: seq<Unit>, i: nat)
    requires i < |us|
    ensures Render(us[i..]) == UnitText(us[i]) + Render(us[i + 1..])
  {
    assert us[i..][1..] == us[i + 1..];
  }

  /** `Units` of a string starting with an ASCII byte. */
  lemma UnitsStep(bs: seq<Byte>, n: nat)
    requires |bs| > 0 && bs[0] < 0x80 && n == 1
    ensures Units(bs) == [UnitOfChar(bs[0] as char)] + Units(bs[n..])
  {
    DecodeStepAscii(bs);
  }


  lemma UnitsScalar(bs: seq<Byte>, c: char, n: nat)
    requires |bs| > 0 && DecodeStep(bs) == Scalar(c, n)
    ensures Units(bs) == [UnitOfChar(c)] + Units(bs[n..])
  {
  }

  lemma UnitsIncomplete(bs: seq<Byte>)
    requires |bs| > 0 && DecodeStep(bs) == Incomplete
    ensures Units(bs) == HexAll(bs)
  {
  }

  lemma UnitsInvalid(bs: seq<Byte>, n: nat)
    requires |bs| > 0 && DecodeStep(bs) == Invalid(n)
    ensures Units(bs) == HexAll(bs[..n]) + Units(bs[n..])
  {
  }

  /** `quote_strings`: a truncated three-byte sequence at the end is escaped byte by byte. */
  lemma ExampleIncompleteUnits() returns (us: seq<Unit>)
    ensures us == [Shown('\U{3B1}'), Shown(' '), Hex(0xEF), Hex(0xBC)]
    ensures Units([0xCE, 0xB1, 0x20, 0xEF, 0xBC]) == us
  {
    var bs := [0xCE, 0xB1, 0x20, 0xEF, 0xBC];
    assert Value2(0xCE, 0xB1) == 0x3B1;
    assert DecodeStep(bs) == Scalar('\U{3B1}', 2);
    UnitsScalar(bs, '\U{3B1}', 2);
    UnitsStep(bs[2..], 1);
    assert bs[2..][1..] == bs[3..] == [0xEF, 0xBC];
    assert DecodeStep(bs[3..]) == Incomplete;
    UnitsIncomplete(bs[3..]);
    us := [Shown('\U{3B1}'), Shown(' '), Hex(0xEF), Hex(0xBC)];
  }

  lemma ExampleIncompleteText(us: seq<Unit>)
    requires us == [Shown('\U{3B1}'), Shown(' '), Hex(0xEF), Hex(0xBC)]
    ensures Render(us) == ['\U{3B1}', ' ', '\\', 'x', 'E', 'F', '\\', 'x', 'B', 'C']
  {
    RenderAt(us, 0); RenderAt(us, 1); RenderAt(us, 2); RenderAt(us, 3);
    assert us[0..] == us && us[4..] == [];
    assert UnitText(us[2]) == ['\\', 'x', 'E', 'F'];
    assert UnitText(us[3]) == ['\\', 'x', 'B', 'C'];
  }

  lemma ExampleIncomplete(charWidth: CharWidth)
    ensures Format([0xCE, 0xB1, 0x20, 0xEF, 0xBC], None, charWidth, FAST_LOW_AS_WRITTEN)
         == (['\U{3B1}', ' ', '\\', 'x', 'E', 'F', '\\', 'x', 'B', 'C'], false)
  {
    var bs := [0xCE, 0xB1, 0x20, 0xEF, 0xBC];
    assert !InFastRange(bs, FAST_LOW_AS_WRITTEN) by { assert bs[0] == 0xCE; }
    var us := ExampleIncompleteUnits();
    ExampleIncompleteText(us);
  }

  /**
   * `quote_strings` with a limit of 3 columns, when the Greek letter and the
   * space are one column each: the escapes do not fit in the one column left.
   */
  lemma ExampleIncompleteCut(charWidth: CharWidth)
    requires charWidth('\U{3B1}') == Some(1) && charWidth(' ') == Some(1)
    ensures Format([0xCE, 0xB1, 0x20, 0xEF, 0xBC], Some(3), charWidth, FAST_LOW_AS_WRITTEN)
         == (['\U{3B1}', ' '], true)
  {
    var bs := [0xCE, 0xB1, 0x20, 0xEF, 0xBC];
    assert !InFastRange(bs, FAST_LOW_AS_WRITTEN) by { assert bs[0] == 0xCE; }
    var us := ExampleIncompleteUnits();
    ExampleIncompleteFit(us, charWidth);
  }

  lemma ExampleIncompleteFit(us: seq<Unit>, charWidth: CharWidth)
    requires us == [Shown('\U{3B1}'), Shown(' '), Hex(0xEF), Hex(0xBC)]
    requires charWidth('\U{3B1}') == Some(1) && charWidth(' ') == Some(1)
    ensures Fit(us, 3, charWidth) == 2
    ensures Render(us[..2]) == ['\U{3B1}', ' ']
  {
    assert us[1..][1..] == us[2..];
    assert Fit(us[2..], 1, charWidth) == 0;
    assert Fit(us[1..], 2, charWidth) == 1;
    assert us[..2][1..] == [Shown(' ')];
    assert [Shown(' ')][..0] == [];
  }

  /** The Greek letter alpha, U+03B1, is the two bytes CE B1. */
  lemma UnitsAlpha(rest: seq<Byte>)
    ensures Units([0xCE, 0xB1] + rest) == [Shown('\U{3B1}')] + Units(rest)
  {
    var bs := [0xCE, 0xB1] + rest;
    assert bs[0] == 0xCE && bs[1] == 0xB1;
    assert Value2(0xCE, 0xB1) == 0x3B1;
    UnitsScalar(bs, '\U{3B1}', 2);
    assert bs[2..] == rest;
  }

  lemma UnitsSpace(rest: seq<Byte>)
    ensures Units([0x20] + rest) == [Shown(' ')] + Units(rest)
  {
    var bs := [0x20] + rest;
    UnitsStep(bs, 1);
    assert bs[1..] == rest;
  }

  /** EF BC starts a three-byte sequence; a space after them makes it invalid, of length 2. */
  lemma UnitsBrokenBeforeSpace(rest: seq<Byte>)
    ensures Units([0xEF, 0xBC, 0x20] + rest) == [Hex(0xEF), Hex(0xBC)] + Units([0x20] + rest)
  {
    var bs := [0xEF, 0xBC, 0x20] + rest;
    assert bs[0] == 0xEF && bs[1] == 0xBC && bs[2] == 0x20;
    assert DecodeStep(bs) == Invalid(2);
    UnitsInvalid(bs, 2);
    assert bs[..2] == [0xEF, 0xBC] && bs[2..] == [0x20] + rest;
  }

  /** `quote_strings`: an invalid sequence in the middle is escaped and the text after it goes on. */
  lemma ExampleInvalidUnits(bs: seq<Byte>) returns (us: seq<Unit>)
    requires bs == [0xCE, 0xB1, 0x20, 0xEF, 0xBC, 0x20, 0xCE, 0xB1]
    ensures us == [Shown('\U{3B1}'), Shown(' '), Hex(0xEF), Hex(0xBC), Shown(' '), Shown('\U{3B1}')]
    ensures Units(bs) == us
  {
    var broken := [0xEF, 0xBC, 0x20, 0xCE, 0xB1];
    var tail := InvalidTailUnits(broken);
    assert bs == [0xCE, 0xB1] + ([0x20] + broken);
    UnitsAlpha([0x20] + broken);
    UnitsSpace(broken);
    us := [Shown('\U{3B1}'), Shown(' ')] + tail;
  }

  lemma InvalidTailUnits(bs: seq<Byte>) returns (us: seq<Unit>)
    requires bs == [0xEF, 0xBC, 0x20, 0xCE, 0xB1]
    ensures us == [Hex(0xEF), Hex(0xBC), Shown(' '), Shown('\U{3B1}')]
    ensures Units(bs) == us
  {
    var alpha := bs[3..];
    assert alpha == [0xCE, 0xB1] + alpha[2..] && alpha[2..] == [];
    UnitsAlpha(alpha[2..]);
    UnitsSpace(alpha);
    UnitsBrokenBeforeSpace(alpha);
    assert [0xEF, 0xBC, 0x20] + alpha == bs;
    us := [Hex(0xEF), Hex(0xBC), Shown(' '), Shown('\U{3B1}')];
  }

  lemma ExampleInvalidText(us: seq<Unit>)
    requires us == [Shown('\U{3B1}'), Shown(' '), Hex(0xEF), Hex(0xBC), Shown(' '), Shown('\U{3B1}')]
    ensures Render(us) == ['\U{3B1}', ' ', '\\', 'x', 'E', 'F', '\\', 'x', 'B', 'C', ' ', '\U{3B1}']
  {
    var head := us[..4];
    var tail := us[4..];
    assert us == head + tail;
    RenderConcat(head, tail);
    ExampleIncompleteText(head);
    RenderAt(tail, 0); RenderAt(tail, 1);
    assert tail[0..] == tail && tail[2..] == [];
  }

  lemma ExampleInvalid(charWidth: CharWidth)
    ensures Format([0xCE, 0xB1, 0x20, 0xEF, 0xBC, 0x20, 0xCE, 0xB1], None, charWidth, FAST_LOW_AS_WRITTEN)
         == (['\U{3B1}', ' ', '\\', 'x', 'E', 'F', '\\', 'x', 'B', 'C', ' ', '\U{3B1}'], false)
  {
    var bs := [0xCE, 0xB1, 0x20, 0xEF, 0xBC, 0x20, 0xCE, 0xB1];
    assert !InFastRange(bs, FAST_LOW_AS_WRITTEN) by { assert bs[0] == 0xCE; }
    var us := ExampleInvalidUnits(bs);
    ExampleInvalidText(us);
  }

  /** `quote_strings`: full-width letters come through as they are. */
  lemma ExampleFullWidthUnits() returns (us: seq<Unit>)
    ensures us == [Shown('\U{FF21}'), Shown(' '), Shown('\U{FF22}')]
    ensures Units([0xEF, 0xBC, 0xA1, 0x20, 0xEF, 0xBC, 0xA2]) == us
  {
    var bs := [0xEF, 0xBC, 0xA1, 0x20, 0xEF, 0xBC, 0xA2];
    assert Value3(0xEF, 0xBC, 0xA1) == 0xFF21;
    assert DecodeStep(bs) == Scalar('\U{FF21}', 3);
    UnitsScalar(bs, '\U{FF21}', 3);
    UnitsStep(bs[3..], 1);
    assert bs[3..][1..] == bs[4..] == [0xEF, 0xBC, 0xA2];
    assert Value3(0xEF, 0xBC, 0xA2) == 0xFF22;
    assert DecodeStep(bs[4..]) == Scalar('\U{FF22}', 3);
    UnitsScalar(bs[4..], '\U{FF22}', 3);
    assert bs[4..][3..] == [];
    us := [Shown('\U{FF21}'), Shown(' '), Shown('\U{FF22}')];
  }

  lemma ExampleFullWidthText(us: seq<Unit>)
    requires us == [Shown('\U{FF21}'), Shown(' '), Shown('\U{FF22}')]
    ensures Render(us) == ['\U{FF21}', ' ', '\U{FF22}']
  {
    RenderAt(us, 0); RenderAt(us, 1); RenderAt(us, 2);
    assert us[0..] == us && us[3..] == [];
  }

  lemma ExampleFullWidth(charWidth: CharWidth)
    ensures Format([0xEF, 0xBC, 0xA1, 0x20, 0xEF, 0xBC, 0xA2], None, charWidth, FAST_LOW_AS_WRITTEN)
         == (['\U{FF21}', ' ', '\U{FF22}'], false)
  {
    var bs := [0xEF, 0xBC, 0xA1, 0x20, 0xEF, 0xBC, 0xA2];
    assert !InFastRange(bs, FAST_LOW_AS_WRITTEN) by { assert bs[0] == 0xEF; }
    var us := ExampleFullWidthUnits();
    ExampleFullWidthText(us);
  }

  /** `quote_strings`: plain ASCII takes the fast path, whole when it fits and cut to `max - 1` when not. */
  lemma ExampleFastPath(charWidth: CharWidth)
    ensures Format([0x61, 0x61, 0x61], Some(3), charWidth, FAST_LOW_AS_WRITTEN) == (['a', 'a', 'a'], false)
    ensures Format([0x62, 0x62, 0x62, 0x62, 0x62], Some(3), charWidth, FAST_LOW_AS_WRITTEN) == (['b', 'b'], true)
  {
    var a := [0x61, 0x61, 0x61];
    var b := [0x62, 0x62, 0x62, 0x62, 0x62];
    assert InFastRange(a, FAST_LOW_AS_WRITTEN);
    assert InFastRange(b, FAST_LOW_AS_WRITTEN);
    assert Chars(a) == ['a', 'a', 'a'];
    assert b[..2] == [0x62, 0x62];
    assert Chars(b[..2]) == ['b', 'b'];
  }
}
