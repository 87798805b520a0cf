/**
 * The escaped output of a file name as a sequence of units, each a
 * character shown as is or a `\xNN` escape, and how a width budget in
 * terminal columns cuts such a sequence short: the part of `QuotedString`'s
 * formatting that does not depend on how the units came from the bytes.
 *
 * The terminal width of a character (the `unicode-width` crate) is the
 * parameter `charWidth`.
 */
module Escapes {
  import opened Common
  import Config

  /** `UnicodeWidthChar::width`: `None` for control characters. */
  type CharWidth = char -> Option<nat>

  /** One piece of the slow path's output: a character shown as is, or a `\xNN` escape. */
  datatype Unit = Shown(c: char) | Hex(v: Byte)

  /** An upper-case hexadecimal digit (`{:02X}`). */
  function HexDigit(d: nat): (c: char)
    requires d < 16
    ensures '0' <= c <= '9' || 'A' <= c <= 'F'
  {
    if d < 10 then ('0' as int + d) as char else ('A' as int + d - 10) as char
  }

  /** What one unit prints. */
  function UnitText(u: Unit): (t: string)
    ensures u.Shown? ==> t == [u.c]
    ensures u.Hex? ==> |t| == 4 && t[0] == '\\' && t[1] == 'x'
  {
    match u
    case Shown(c) => [c]
    case Hex(v) => ['\\', 'x', HexDigit(v / 16), HexDigit(v % 16)]
  }

  /** How many columns the budget is charged for one unit: 4 for an escape. */
  function UnitWidth(u: Unit, charWidth: CharWidth): nat {
    match u
    case Shown(c) => charWidth(c).GetOr(0)
    case Hex(_) => 4
  }

  /** The text of a sequence of units. */
  function Render(us: seq<Unit>): string {
    if us == [] then [] else UnitText(us[0]) + Render(us[1..])
  }

  /** The columns a sequence of units is charged for. */
  function TotalWidth(us: seq<Unit>, charWidth: CharWidth): nat {
    if us == [] then 0 else UnitWidth(us[0], charWidth) + TotalWidth(us[1..], charWidth)
  }

  /**
   * How many units `next_char!` lets through with `budget` columns left: a
   * unit is written only while the budget is larger than its width, and the
   * first one that does not fit ends the output.
   */
  function Fit(us: seq<Unit>, budget: nat, charWidth: CharWidth): (k: nat)
    ensures k <= |us|
  {
    if us == [] || budget <= UnitWidth(us[0], charWidth) then 0
    else 1 + Fit(us[1..], budget - UnitWidth(us[0], charWidth), charWidth)
  }

  /** `next_char!` and `write!` over a run of units, with `width` the budget left (`None`: no limit). */
  method WriteUnits(units: seq<Unit>, width: Option<nat>, charWidth: CharWidth)
    returns (text: string, width': Option<nat>, stopped: bool)
    requires width.Some? ==> width.value >= 1
    ensures width.None? ==> text == Render(units) && !stopped && width'.None?
    ensures width.Some? ==>
      var k := Fit(units, width.value, charWidth);
      && text == Render(units[..k])
      && (stopped <==> k < |units|)
      && (!stopped ==> width'.Some? && width'.value >= 1 && width'.value + TotalWidth(units, charWidth) == width.value)
  {
    text := [];
    width' := width;
    stopped := false;
    var i := 0;
    while i < |units|
      invariant i <= |units|
      invariant text == Render(units[..i])
      invariant width.None? ==> width'.None?
      invariant width.Some? ==>
        && width'.Some? && width'.value >= 1
        && width'.value + TotalWidth(units[..i], charWidth) == width.value
        && Fit(units, width.value, charWidth) == i + Fit(units[i..], width'.value, charWidth)
    {
      var u := units[i];
      assert units[..i + 1] == units[..i] + [u];
      Snoc(units[..i], u, charWidth);
      if width'.Some? {
        var w := UnitWidth(u, charWidth);
        if width'.value <= w {
          return text, width', true;
        }
        width' := Some(width'.value - w);
        assert units[i..][1..] == units[i + 1..];
      }
      text := text + UnitText(u);
      i := i + 1;
    }
    assert units[..i] == units;
  }

  /** The slow path's result over the units of the whole string. */
  function SlowUnits(all: seq<Unit>, maxWidth: Option<Config.NonZero>, charWidth: CharWidth): (string, bool) {
    if maxWidth.None? then (Render(all), false)
    else
      var k := Fit(all, maxWidth.value, charWidth);
      (Render(all[..k]), k < |all|)
  }

  lemma {:induction false} RenderConcat(a: seq<Unit>, b: seq<Unit>)
    ensures Render(a + b) == Render(a) + Render(b)
  {
    if a == [] {
      assert a + b == b;
    } else {
      assert (a + b)[1..] == a[1..] + b;
      RenderConcat(a[1..], b);
    }
  }

  lemma {:induction false} TotalWidthConcat(a: seq<Unit>, b: seq<Unit>, charWidth: CharWidth)
    ensures TotalWidth(a + b, charWidth) == TotalWidth(a, charWidth) + TotalWidth(b, charWidth)
  {
    if a == [] {
      assert a + b == b;
    } else {
      assert (a + b)[1..] == a[1..] + b;
      TotalWidthConcat(a[1..], b, charWidth);
    }
  }

  /** One more unit at the end adds its text and its width. */
  lemma Snoc(us: seq<Unit>, u: Unit, charWidth: CharWidth)
    ensures Render(us + [u]) == Render(us) + UnitText(u)
    ensures TotalWidth(us + [u], charWidth) == TotalWidth(us, charWidth) + UnitWidth(u, charWidth)
  {
    RenderConcat(us, [u]);
    TotalWidthConcat(us, [u], charWidth);
    assert [u][1..] == [];
  }

  /** The budget runs out inside `a`: what follows `a` does not matter. */
  lemma {:induction false} FitConcatCut(a: seq<Unit>, b: seq<Unit>, budget: nat, charWidth: CharWidth)
    requires Fit(a, budget, charWidth) < |a|
    ensures Fit(a + b, budget, charWidth) == Fit(a, budget, charWidth)
  {
    assert (a + b)[0] == a[0];
    var w := UnitWidth(a[0], charWidth);
    if budget > w {
      assert (a + b)[1..] == a[1..] + b;
      FitConcatCut(a[1..], b, budget - w, charWidth);
    }
  }

  /** All of `a` fits: it costs less than the budget, and `b` gets what is left. */
  lemma {:induction false} FitConcatAll(a: seq<Unit>, b: seq<Unit>, budget: nat, charWidth: CharWidth)
    requires Fit(a, budget, charWidth) == |a|
    ensures TotalWidth(a, charWidth) < budget || a == []
    ensures TotalWidth(a, charWidth) <= budget
    ensures Fit(a + b, budget, charWidth) == |a| + Fit(b, budget - TotalWidth(a, charWidth), charWidth)
  {
    if a == [] {
      assert a + b == b;
    } else {
      var w := UnitWidth(a[0], charWidth);
      assert (a + b)[0] == a[0];
      assert (a + b)[1..] == a[1..] + b;
      FitConcatAll(a[1..], b, budget - w, charWidth);
    }
  }

  /** A run of units the budget ends inside: the output stops there, with the flag set. */
  lemma CutInside(units: seq<Unit>, after: seq<Unit>, budget: nat, charWidth: CharWidth)
    requires Fit(units, budget, charWidth) < |units|
    ensures var k := Fit(units, budget, charWidth);
      && Fit(units + after, budget, charWidth) == k
      && (units + after)[..k] == units[..k]
      && k < |units + after|
  {
    FitConcatCut(units, after, budget, charWidth);
  }

  /** A run of units that all fit: their text, then what the rest gets with the budget left. */
  lemma FitsWhole(units: seq<Unit>, after: seq<Unit>, budget: nat, charWidth: CharWidth)
    requires units != [] && Fit(units, budget, charWidth) == |units|
    ensures TotalWidth(units, charWidth) < budget
    ensures var left := budget - TotalWidth(units, charWidth);
      var k := Fit(after, left, charWidth);
      && Fit(units + after, budget, charWidth) == |units| + k
      && Render((units + after)[..|units| + k]) == Render(units) + Render(after[..k])
      && (|units| + k < |units + after| <==> k < |after|)
  {
    FitConcatAll(units, after, budget, charWidth);
    var left := budget - TotalWidth(units, charWidth);
    var k := Fit(after, left, charWidth);
    assert (units + after)[..|units| + k] == units + after[..k];
    RenderConcat(units, after[..k]);
  }

  /** No character below the space. */
  predicate NoControl(s: string) {
    forall i :: 0 <= i < |s| ==> s[i] >= ' '
  }

  /** Every character a sequence of units shows as is is printable. */
  predicate ShowsPrintable(us: seq<Unit>) {
    forall i :: 0 <= i < |us| ==> us[i].Shown? ==> us[i].c >= ' '
  }

  /** Escapes are printable themselves, so text made of escapes and printable characters has no control character. */
  lemma {:induction false} RenderNoControl(us: seq<Unit>)
    requires ShowsPrintable(us)
    ensures NoControl(Render(us))
    decreases |us|
  {
    if us != [] {
      assert ShowsPrintable(us[1..]) by {
        forall i | 0 <= i < |us[1..]| ensures us[1..][i] == us[i + 1] { }
      }
      RenderNoControl(us[1..]);
      assert NoControl(UnitText(us[0]));
    }
  }

  /** The units written under a budget form a prefix of the units, and so does their text. */
  lemma RenderPrefix(us: seq<Unit>, k: nat)
    requires k <= |us|
    ensures Render(us[..k]) <= Render(us)
  {
    assert us == us[..k] + us[k..];
    RenderConcat(us[..k], us[k..]);
  }

  /**
   * The budget rule: the units written cost fewer columns than the budget,
   * and the first unit left out would have reached it.
   */
  lemma {:induction false} FitWithinBudget(us: seq<Unit>, budget: nat, charWidth: CharWidth)
    requires budget >= 1
    ensures TotalWidth(us[..Fit(us, budget, charWidth)], charWidth) < budget
    ensures Fit(us, budget, charWidth) < |us| ==>
      TotalWidth(us[..Fit(us, budget, charWidth) + 1], charWidth) >= budget
  {
    if us == [] || budget <= UnitWidth(us[0], charWidth) {
      assert us[..0] == [];
      if us != [] {
        assert us[..1][1..] == [];
      }
    } else {
      var w := UnitWidth(us[0], charWidth);
      var k := Fit(us[1..], budget - w, charWidth);
      FitWithinBudget(us[1..], budget - w, charWidth);
      assert us[..k + 1][1..] == us[1..][..k];
      if k < |us[1..]| {
        assert us[..k + 2][1..] == us[1..][..k + 1];
      }
    }
  }

  /**
   * With a limit, the text is that of a prefix of the units costing fewer
   * columns than the limit, the longest such one, and the flag is set
   * exactly when units were left out.
   */
  lemma LimitCutsByUnits(all: seq<Unit>, max: Config.NonZero, charWidth: CharWidth)
    ensures var (text, cut) := SlowUnits(all, Some(max), charWidth);
      exists k :: 0 <= k <= |all| && text == Render(all[..k]) && (cut <==> k < |all|)
        && TotalWidth(all[..k], charWidth) < max
        && (k < |all| ==> TotalWidth(all[..k + 1], charWidth) >= max)
    ensures SlowUnits(all, Some(max), charWidth).0 <= Render(all)
    ensures !SlowUnits(all, Some(max), charWidth).1 ==> SlowUnits(all, Some(max), charWidth).0 == Render(all)
  {
    var k := Fit(all, max, charWidth);
    FitWithinBudget(all, max, charWidth);
    RenderPrefix(all, k);
    assert all[..|all|] == all;
  }
}
