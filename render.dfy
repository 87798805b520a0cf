/**
 * The renderer: it turns the analysis of a directory into the columns of the
 * screen. Each non-empty group becomes a names column, preceded by the side
 * columns (lines added, lines deleted, disk usage) that have something to
 * show and by an indicators column when a style rule gave an indicator; the
 * info boxes are rendered from their format strings.
 *
 * What comes from outside the configuration and the analysis is an input:
 * the environment variables (`LS_COLORS` or the configured variable, and
 * `HOME`), the `lscolors` database built from a variable's value, the
 * matchers' environment, the character widths, the colour parser of the
 * info format and the display form of the analysed path.
 */
module Render {
  import opened Common
  import Config
  import Styles
  import Fs
  import Escapes
  import Strings
  import Matchers
  import Files
  import GitDiff
  import Info
  import Analyzer
  import opened Grid

  /** `DEFAULT_PADDING`: the width of the padding column between two groups. */
  const DEFAULT_PADDING: nat := 4

  /*
   * ---------------------------------------------------------------------
   * `format_size`
   * ---------------------------------------------------------------------
   */

  /** The unit letters, in the order the loop of `format_size` steps through them. */
  const UNITS: string := "KMGTPEZY"

  /** `1 << 20`: the loop divides by 1024 while the size is above it. */
  const REDUCE_ABOVE: nat := 0x10_0000

  /** `u64::MAX + 1`. */
  const U64_LIMIT: nat := 0x1_0000_0000_0000_0000

  /**
   * The loop of `format_size`: the size once it is at most `1 << 20`, and
   * how many times it was divided by 1024 to get there.
   */
  function Reduce(size: nat): (r: (nat, nat))
    ensures r.0 <= REDUCE_ABOVE
    ensures size > REDUCE_ABOVE ==> r.0 > 1023
    ensures size <= REDUCE_ABOVE ==> r == (size, 0)
    decreases size
  {
    if size > REDUCE_ABOVE then
      var r := Reduce(size / 1024);
      (r.0, r.1 + 1)
    else (size, 0)
  }

  function Pow1024(k: nat): (p: nat)
    ensures p > 0
  {
    if k == 0 then 1 else 1024 * Pow1024(k - 1)
  }

  /**
   * The loop keeps the leading part of the size: after `k` divisions the
   * size is its value in units of `1024^k`, rounded down.
   */
  lemma {:induction false} ReduceScale(size: nat)
    ensures Reduce(size).0 * Pow1024(Reduce(size).1) <= size < (Reduce(size).0 + 1) * Pow1024(Reduce(size).1)
    decreases size
  {
    if size > REDUCE_ABOVE {
      var q := size / 1024;
      ReduceScale(q);
      var (s, k) := Reduce(q);
      var p := Pow1024(k);
      assert Pow1024(k + 1) == 1024 * p;
      assert s * p <= q < (s + 1) * p;
      assert 1024 * q <= size < 1024 * q + 1024;
      MulLeft(1024, s * p, q);
      MulLeft(1024, q + 1, (s + 1) * p);
      MulAssoc(s, 1024, p);
      MulAssoc(s + 1, 1024, p);
    }
  }

  lemma MulLeft(c: nat, a: nat, b: nat)
    requires a <= b
    ensures c * a <= c * b
  {
  }

  lemma MulAssoc(a: nat, b: nat, c: nat)
    ensures a * (b * c) == b * (a * c)
  {
  }

  /**
   * A `u64` size is never divided more than five times, so the unit letter
   * is always found and never the `'?'` fallback.
   */
  lemma {:induction false} ReduceSteps(size: nat)
    requires size < U64_LIMIT
    ensures Reduce(size).1 <= 5
  {
    assert Pow1024(5) == 0x4_0000_0000_0000;
    ReduceBelow(size, 5);
  }

  /** A size of at most `(1 << 20) * 1024^k` is divided at most `k` times. */
  lemma {:induction false} ReduceBelow(size: nat, k: nat)
    requires size <= REDUCE_ABOVE * Pow1024(k)
    ensures Reduce(size).1 <= k
  {
    if size > REDUCE_ABOVE {
      assert k > 0;
      assert size <= (REDUCE_ABOVE * Pow1024(k - 1)) * 1024;
      ReduceBelow(size / 1024, k - 1);
    }
  }

  /**
   * `{:.0}` of `n / d`: the nearest whole number, a tie going to the even
   * one. The quotient `size as f32 / 1024.0` is exact, since a size of at
   * most `1 << 20` is exactly representable in an `f32` and 1024 is a power
   * of two, so rounding the exact rational quotient is what is printed.
   */
  function RoundHalfEven(n: nat, d: nat): (q: nat)
    requires d > 0
    ensures q * d <= n + d / 2 && n <= q * d + d / 2
  {
    var q := n / d;
    var r := n % d;
    assert n == q * d + r && r < d;
    assert (q + 1) * d == q * d + d;
    if 2 * r > d then q + 1
    else if 2 * r < d then q
    else if q % 2 == 0 then q
    else q + 1
  }

  /** The unit letter after `k` divisions (`units.next().unwrap_or('?')`). */
  function UnitLetter(k: nat): char {
    if k < |UNITS| then UNITS[k] else '?'
  }

  /**
   * `format_size`: below 1024 the decimal number itself; otherwise the
   * size divided by 1024 until at most `1 << 20`, then shown in the next
   * unit, rounded to a whole number, followed by that unit's letter.
   */
  function FormatSizeOf(size: nat): (s: string)
    ensures size < 1024 ==> s == DecimalString(size)
    ensures size >= 1024 ==> |s| >= 2 && s[|s| - 1] == UnitLetter(Reduce(size).1)
  {
    if size < 1024 then DecimalString(size)
    else
      var r := Reduce(size);
      DecimalString(RoundHalfEven(r.0, 1024)) + [UnitLetter(r.1)]
  }

  /** `format_size` as a loop: the size is divided by 1024 while above `1 << 20`. */
  method FormatSize(size: nat) returns (s: string)
    ensures s == FormatSizeOf(size)
    ensures size < 1024 ==> s == DecimalString(size)
  {
    if size < 1024 {
      return DecimalString(size);
    }
    var n: nat := size;
    var units := 0;
    while n > REDUCE_ABOVE
      invariant Reduce(size) == (Reduce(n).0, Reduce(n).1 + units)
      decreases n
    {
      units := units + 1;
      n := n / 1024;
    }
    s := DecimalString(RoundHalfEven(n, 1024)) + [UnitLetter(units)];
  }

  lemma FormatSizeSmall()
    ensures FormatSizeOf(900) == "900"
  {
  }

  lemma FormatSizeKilo()
    ensures FormatSizeOf(1024) == "1K"
    ensures FormatSizeOf(1100) == "1K"
    ensures FormatSizeOf(11111) == "11K"
  {
    assert DecimalString(11) == DecimalString(1) + [DigitChar(1)];
  }

  lemma FormatSizeMega()
    ensures FormatSizeOf(0x20_0000 + 100) == "2M"
  {
    assert Reduce(0x20_0000 + 100) == (2048, 1);
  }

  /*
   * ---------------------------------------------------------------------
   * `render_group`
   * ---------------------------------------------------------------------
   */

  /** An `lscolors` database: the style it gives a path with its metadata, if any. */
  type LsLookup = (seq<Byte>, Fs.Metadata) -> Option<Styles.Style>

  /**
   * What the renderer takes from outside the configuration and the
   * analysis: the environment variables, the `lscolors` database parsed
   * from a variable's value, the matchers' environment, the character
   * widths, the style of the disk-usage cells, the colour parser of the
   * info format, and the display form of the analysed path.
   */
  datatype Inputs = Inputs(
    envVar: string -> Option<string>,
    lsColorsOf: string -> LsLookup,
    env: Matchers.Env,
    charWidth: Escapes.CharWidth,
    diskUsageStyle: Option<Styles.Style>,
    parseColor: string -> Option<Styles.Style>,
    pathText: string)

  /** The variable that holds the `ls` colour database, if `lscolors` is used at all. */
  function LsColorsVar(use: Config.LsColors): (r: Option<string>)
    ensures r.None? <==> use == Config.Bool(false)
    ensures use == Config.Bool(true) ==> r == Some("LS_COLORS")
    ensures use.VarName? ==> r == Some(use.name)
  {
    match use
    case Bool(b) => if b then Some("LS_COLORS") else None
    case VarName(v) => Some(v)
  }

  /** The `lscolors` database, when its variable is configured and set. */
  function LsColors(config: Config.Root, inp: Inputs): (r: Option<LsLookup>)
    ensures r.Some? ==> exists v :: LsColorsVar(Config.ColorsOf(config).useLscolors) == Some(v) && inp.envVar(v).Some?
  {
    var name := LsColorsVar(Config.ColorsOf(config).useLscolors);
    if name.Some? && inp.envVar(name.value).Some? then Some(inp.lsColorsOf(inp.envVar(name.value).value)) else None
  }

  /** `color!`: the style of a configured colour. */
  function StyleOf(c: Option<Config.Color>): (r: Option<Styles.Style>)
    ensures r.Some? <==> c.Some?
    ensures c.Some? ==> r.value == c.value.style
  {
    if c.Some? then Some(c.value.style) else None
  }

  const GREEN: Styles.Style := Styles.Plain.(foreground := Some(Styles.Green))
  const RED: Styles.Style := Styles.Plain.(foreground := Some(Styles.Red))

  /**
   * The text appended to a cut name. The source file spells it as the three
   * characters U+00E2 U+20AC U+00A6 (the UTF-8 bytes of `…` read as
   * Windows-1252), and that is what is printed.
   */
  const ELLIPSIS: string := "\U{E2}\U{20AC}\U{A6}"

  /** The side columns, in the order they are appended to the screen. */
  datatype Side = Added | Deleted | DiskUsage

  const SIDES: seq<Side> := [Added, Deleted, DiskUsage]

  /** The filters of `extra_column!`: the file has something for this side column. */
  predicate HasData(side: Side, f: Files.File) {
    match side
    case Added => f.gitChanges.Some? && f.gitChanges.value.insertions > 0
    case Deleted => f.gitChanges.Some? && f.gitChanges.value.deletions > 0
    case DiskUsage => f.treeJob
  }

  /** Some shown file has something for this side column. */
  predicate Present(side: Side, files: seq<Files.File>) {
    exists i :: 0 <= i < |files| && HasData(side, files[i])
  }

  /**
   * The cell of a file in a side column: `+N` or `-N` when the count is
   * positive, the formatted size when its tree job gave one, else nothing.
   */
  function SideSpans(side: Side, f: Files.File, colors: Config.Colors, inp: Inputs): (spans: seq<Span>)
    ensures |spans| <= 1
    ensures side != DiskUsage ==> (spans != [] <==> HasData(side, f))
    ensures side == DiskUsage ==> (spans != [] <==> f.treeInfo.Some?)
    ensures side == Added && spans != [] ==> spans[0].text == "+" + DecimalString(f.gitChanges.value.insertions)
    ensures side == Deleted && spans != [] ==> spans[0].text == "-" + DecimalString(f.gitChanges.value.deletions)
  {
    match side
    case Added =>
      if HasData(Added, f) then [Span("+" + DecimalString(f.gitChanges.value.insertions), Some(StyleOf(colors.diffAdded).GetOr(GREEN)))]
      else []
    case Deleted =>
      if HasData(Deleted, f) then [Span("-" + DecimalString(f.gitChanges.value.deletions), Some(StyleOf(colors.diffDeleted).GetOr(RED)))]
      else []
    case DiskUsage =>
      if f.treeInfo.Some? then [Span(FormatSizeOf(f.treeInfo.value.diskUsage), inp.diskUsageStyle)] else []
  }

  /** The entry a style rule's matchers see: the file name is the path. */
  function EntryOf(f: Files.File): Matchers.Entry {
    Matchers.Entry(f.fileName, f.fileName, f.metadata, f.gitChanges)
  }

  predicate Applies(env: Matchers.Env, f: Files.File, rule: Config.Style) {
    Matchers.Matches(env, EntryOf(f), true, rule.matchers)
  }

  /** The name style after the rules: each rule that applies combines its colour in, in order. */
  function RulesStyle(env: Matchers.Env, f: Files.File, rules: seq<Config.Style>, init: Styles.Style): Styles.Style {
    if rules == [] then init
    else
      var prev := RulesStyle(env, f, rules[..|rules| - 1], init);
      var rule := rules[|rules| - 1];
      if Applies(env, f, rule) && rule.color.Some? then Styles.Combine(prev, rule.color.value.style) else prev
  }

  /** The indicator cell: the indicators of the rules that apply, in order. */
  function RulesIndicator(env: Matchers.Env, f: Files.File, rules: seq<Config.Style>): seq<Span> {
    if rules == [] then []
    else
      var prev := RulesIndicator(env, f, rules[..|rules| - 1]);
      var rule := rules[|rules| - 1];
      if Applies(env, f, rule) && rule.indicator.Some? then prev + [Span(rule.indicator.value.Get().0, rule.indicator.value.Get().1)] else prev
  }

  /** Some rule that applies to the file has an indicator. */
  predicate Indicates(env: Matchers.Env, f: Files.File, rules: seq<Config.Style>) {
    exists i :: 0 <= i < |rules| && Applies(env, f, rules[i]) && rules[i].indicator.Some?
  }

  /** The indicator cell is empty exactly when no applying rule has an indicator. */
  lemma {:induction false} IndicatorIff(env: Matchers.Env, f: Files.File, rules: seq<Config.Style>)
    ensures RulesIndicator(env, f, rules) != [] <==> Indicates(env, f, rules)
  {
    if rules != [] {
      var init := rules[..|rules| - 1];
      IndicatorIff(env, f, init);
      if Indicates(env, f, init) {
        var i :| 0 <= i < |init| && Applies(env, f, init[i]) && init[i].indicator.Some?;
        assert rules[i] == init[i];
      }
      if Indicates(env, f, rules) {
        var i :| 0 <= i < |rules| && Applies(env, f, rules[i]) && rules[i].indicator.Some?;
        if i < |init| {
          assert init[i] == rules[i];
        }
      }
    }
  }

  /**
   * The rules only ever add to the name style: every attribute of the
   * starting style, and of the colour of every rule that applies, is set in
   * the result.
   */
  lemma {:induction false} RulesStyleKeeps(env: Matchers.Env, f: Files.File, rules: seq<Config.Style>, init: Styles.Style)
    ensures Styles.AttributesWithin(init, RulesStyle(env, f, rules, init))
    ensures forall i :: 0 <= i < |rules| && Applies(env, f, rules[i]) && rules[i].color.Some? ==>
      Styles.AttributesWithin(rules[i].color.value.style, RulesStyle(env, f, rules, init))
  {
    if rules != [] {
      var init' := rules[..|rules| - 1];
      RulesStyleKeeps(env, f, init', init);
      var prev := RulesStyle(env, f, init', init);
      var r := RulesStyle(env, f, rules, init);
      assert Styles.AttributesWithin(prev, r);
      forall i | 0 <= i < |rules| && Applies(env, f, rules[i]) && rules[i].color.Some?
        ensures Styles.AttributesWithin(rules[i].color.value.style, r)
      {
        if i < |init'| {
          assert init'[i] == rules[i];
        }
      }
    }
  }

  /** The name style before the rules: the `lscolors` style of the file, if any, over the plain style. */
  function BaseStyle(ls: Option<LsLookup>, f: Files.File): Styles.Style {
    if ls.Some? && ls.value(f.fileName, f.metadata).Some? then Styles.Combine(Styles.Plain, ls.value(f.fileName, f.metadata).value)
    else Styles.Plain
  }

  /**
   * The name cell: the quoted name, in the combined style unless that is
   * plain, then the ellipsis when the name was cut.
   */
  function NameSpans(f: Files.File, maxWidth: Option<Config.NonZero>, ls: Option<LsLookup>, colors: Config.Colors, inp: Inputs): (spans: seq<Span>)
    ensures 1 <= |spans| <= 2
  {
    var quoted := Strings.Format(f.fileName, maxWidth, inp.charWidth, Strings.FAST_LOW_AS_WRITTEN);
    NameCell(quoted.0, quoted.1, RulesStyle(inp.env, f, colors.styles, BaseStyle(ls, f)), colors)
  }

  /** The spans of a name cell: the quoted name in its style (none if plain), then the ellipsis if it was cut. */
  function NameCell(text: string, cut: bool, style: Styles.Style, colors: Config.Colors): (spans: seq<Span>)
    ensures 1 <= |spans| <= 2
  {
    [Span(text, if style == Styles.Plain then None else Some(style))]
      + (if cut then [Span(ELLIPSIS, StyleOf(colors.nameEllipsis))] else [])
  }

  /**
   * A name cell carries no control character from the file name as long as
   * the name has no byte from 0x14 to 0x1F (the bytes the quoting's fast
   * path lets through as written), and without a width limit such a name is
   * exactly the escaped name; the ellipsis follows exactly when it was cut.
   */
  lemma NameCellEscaped(f: Files.File, maxWidth: Option<Config.NonZero>, ls: Option<LsLookup>, colors: Config.Colors, inp: Inputs)
    ensures Strings.NoLowControl(f.fileName) ==> Escapes.NoControl(NameSpans(f, maxWidth, ls, colors, inp)[0].text)
    ensures maxWidth.None? ==> NameSpans(f, maxWidth, ls, colors, inp) == [NameSpans(f, maxWidth, ls, colors, inp)[0]]
    ensures maxWidth.None? && Strings.NoLowControl(f.fileName) ==>
      NameSpans(f, maxWidth, ls, colors, inp)[0].text == Escapes.Render(Strings.Units(f.fileName))
  {
    if Strings.NoLowControl(f.fileName) {
      Strings.FormatAsWrittenAgrees(f.fileName, maxWidth, inp.charWidth);
      Strings.FormatNoControl(f.fileName, maxWidth, inp.charWidth);
      if maxWidth.None? {
        Strings.FormatIsEscaping(f.fileName, inp.charWidth);
      }
    }
  }

  /**
   * As written, a file named by the escape character alone (0x1B) has that
   * raw character as its name cell, where the escaping loop would write
   * `\x1B`.
   */
  lemma NameCellRawEscape(f: Files.File, ls: Option<LsLookup>, colors: Config.Colors, inp: Inputs)
    requires f.fileName == [0x1B]
    ensures NameSpans(f, None, ls, colors, inp)[0].text == ['\U{1B}']
    ensures !Escapes.NoControl(NameSpans(f, None, ls, colors, inp)[0].text)
  {
    Strings.FastPathLetsEscapeThrough(inp.charWidth);
  }

  /** The rows of a side column, one per file. */
  function SideLines(side: Side, files: seq<Files.File>, colors: Config.Colors, inp: Inputs): (ls: seq<Line>)
    ensures |ls| == |files|
  {
    if files == [] then []
    else SideLines(side, files[..|files| - 1], colors, inp) + [LineOf(SideSpans(side, files[|files| - 1], colors, inp), inp.charWidth)]
  }

  /** The rows of the indicators column, one per file. */
  function IndicatorLines(files: seq<Files.File>, colors: Config.Colors, inp: Inputs): (ls: seq<Line>)
    ensures |ls| == |files|
  {
    if files == [] then []
    else IndicatorLines(files[..|files| - 1], colors, inp) + [LineOf(RulesIndicator(inp.env, files[|files| - 1], colors.styles), inp.charWidth)]
  }

  /** The rows of the names column, one per file. */
  function NameLines(files: seq<Files.File>, maxWidth: Option<Config.NonZero>, ls: Option<LsLookup>, colors: Config.Colors, inp: Inputs): (r: seq<Line>)
    ensures |r| == |files|
  {
    if files == [] then []
    else NameLines(files[..|files| - 1], maxWidth, ls, colors, inp) + [LineOf(NameSpans(files[|files| - 1], maxWidth, ls, colors, inp), inp.charWidth)]
  }

  /** The empty header row of every column but the names column, when some group has a label. */
  function Header(hasLabels: bool): seq<Line> {
    if hasLabels then [Line([], 0)] else []
  }

  /** The header row of the names column: the label, or nothing if this group has none. */
  function LabelHeader(hasLabels: bool, labelText: Option<string>, colors: Config.Colors, charWidth: Escapes.CharWidth): seq<Line> {
    if hasLabels then [LineOf(if labelText.Some? then [Span(labelText.value, StyleOf(colors.columnLabel))] else [], charWidth)] else []
  }

  /** The `+N entries` row that ends a truncated names column. */
  function MoreLines(more: Option<nat>, colors: Config.Colors, charWidth: Escapes.CharWidth): seq<Line> {
    if more.Some? then [LineOf([Span("+" + DecimalString(more.value) + " entries", StyleOf(colors.moreEntries))], charWidth)] else []
  }

  /**
   * The truncation by `max_rows`: how many files are shown, and how many the
   * `+N entries` row stands for. A group is cut only when it has more files
   * than `max_rows` and more than two; then the last shown row gives way to
   * that row, which always stands for at least two files.
   */
  function Shown(len: nat, maxRows: Option<Config.NonZero>): (r: (nat, Option<nat>))
    ensures r.1.None? ==> r.0 == len
    ensures r.1.None? <==> maxRows.None? || maxRows.value >= len || len <= 2
    ensures r.1.Some? ==> r.0 == maxRows.value - 1 && r.0 + r.1.value == len && r.1.value >= 2
  {
    if maxRows.Some? && maxRows.value < len && len > 2 then (maxRows.value - 1, Some(len - maxRows.value + 1))
    else (len, None)
  }

  /** A group as the renderer reads it: its column and its files. */
  datatype GroupValue = GroupValue(column: Config.Column, files: seq<Files.File>)

  /**
   * A side column as appended: right-aligned, in the column's style, and
   * set to the height of the names column (rows past it dropped).
   */
  function SideBlock(side: Side, shown: seq<Files.File>, hasLabels: bool, height: nat, style: Option<Styles.Style>,
                     colors: Config.Colors, inp: Inputs): Block
  {
    var b := Built(false, Header(hasLabels) + SideLines(side, shown, colors, inp));
    b.(align := Right, style := style, height := height, rows := b.rows[..Min(height, |b.rows|)])
  }

  /** The present side columns among `sides`, in order, each followed by a padding column of width 1. */
  function SideBlocks(sides: seq<Side>, shown: seq<Files.File>, hasLabels: bool, height: nat, style: Option<Styles.Style>,
                      colors: Config.Colors, inp: Inputs): seq<Block>
  {
    if sides == [] then []
    else
      (if Present(sides[0], shown) then [SideBlock(sides[0], shown, hasLabels, height, style, colors, inp), Block(Left, 1, height, false, style, [])] else [])
      + SideBlocks(sides[1..], shown, hasLabels, height, style, colors, inp)
  }

  /** The names column as appended: the label row, one row per shown file, the `+N entries` row. */
  function NamesBlock(g: GroupValue, config: Config.Root, hasLabels: bool, inp: Inputs): Block {
    var colors := Config.ColorsOf(config);
    var shown := Shown(|g.files|, config.grid.maxRows);
    var maxWidth := g.column.maxNameWidth.Or(config.grid.maxNameWidth);
    Built(true, LabelHeader(hasLabels, g.column.labelText, colors, inp.charWidth)
      + NameLines(g.files[..shown.0], maxWidth, LsColors(config, inp), colors, inp)
      + MoreLines(shown.1, colors, inp.charWidth)).(style := StyleOf(g.column.color))
  }

  /** The indicators column as appended, when some shown file has an indicator. */
  function IndicatorBlocks(shown: seq<Files.File>, hasLabels: bool, style: Option<Styles.Style>, colors: Config.Colors, inp: Inputs): seq<Block> {
    if exists i :: 0 <= i < |shown| && Indicates(inp.env, shown[i], colors.styles) then
      [Built(false, Header(hasLabels) + IndicatorLines(shown, colors, inp)).(align := Right, style := style)]
    else []
  }

  /** The columns `render_group` appends for one group. */
  function GroupColumns(g: GroupValue, config: Config.Root, hasLabels: bool, inp: Inputs): (cs: seq<Block>)
    ensures cs != []
  {
    var colors := Config.ColorsOf(config);
    var shown := g.files[..Shown(|g.files|, config.grid.maxRows).0];
    var names := NamesBlock(g, config, hasLabels, inp);
    var style := StyleOf(g.column.color);
    SideBlocks(SIDES, shown, hasLabels, names.height, style, colors, inp)
      + IndicatorBlocks(shown, hasLabels, style, colors, inp)
      + [names]
  }

  /** How many of `sides` have something to show. */
  function PresentCount(sides: seq<Side>, shown: seq<Files.File>): nat {
    if sides == [] then 0 else (if Present(sides[0], shown) then 1 else 0) + PresentCount(sides[1..], shown)
  }

  /**
   * The side columns alternate with their padding columns: one pair per
   * side that has something to show; each side column is right-aligned and
   * as high as the names column, and starts with the empty header row when
   * some group has a label; each padding column is one space wide.
   */
  lemma {:induction false} SideBlocksShape(sides: seq<Side>, shown: seq<Files.File>, hasLabels: bool, height: nat,
                                           style: Option<Styles.Style>, colors: Config.Colors, inp: Inputs)
    ensures |SideBlocks(sides, shown, hasLabels, height, style, colors, inp)| == 2 * PresentCount(sides, shown)
    ensures forall j :: 0 <= j < PresentCount(sides, shown) ==>
      SideColumnShape(SideBlocks(sides, shown, hasLabels, height, style, colors, inp)[2 * j], hasLabels, height, style)
    ensures forall j :: 0 <= j < PresentCount(sides, shown) ==>
      SideBlocks(sides, shown, hasLabels, height, style, colors, inp)[2 * j + 1] == Block(Left, 1, height, false, style, [])
    decreases |sides|
  {
    if sides != [] {
      var tail := SideBlocks(sides[1..], shown, hasLabels, height, style, colors, inp);
      SideBlocksShape(sides[1..], shown, hasLabels, height, style, colors, inp);
      assert SideShape(tail, PresentCount(sides[1..], shown), hasLabels, height, style);
      if Present(sides[0], shown) {
        SideBlockShape(sides[0], shown, hasLabels, height, style, colors, inp);
        SideShapeCons(SideBlock(sides[0], shown, hasLabels, height, style, colors, inp), tail,
                      PresentCount(sides[1..], shown), hasLabels, height, style);
      }
    }
  }

  /** The side and padding columns alternate, `k` pairs of them. */
  predicate SideShape(blocks: seq<Block>, k: nat, hasLabels: bool, height: nat, style: Option<Styles.Style>) {
    && |blocks| == 2 * k
    && (forall j :: 0 <= j < k ==> SideColumnShape(blocks[2 * j], hasLabels, height, style))
    && (forall j :: 0 <= j < k ==> blocks[2 * j + 1] == Block(Left, 1, height, false, style, []))
  }

  lemma SideShapeCons(b: Block, tail: seq<Block>, k: nat, hasLabels: bool, height: nat, style: Option<Styles.Style>)
    requires SideColumnShape(b, hasLabels, height, style) && SideShape(tail, k, hasLabels, height, style)
    ensures SideShape([b, Block(Left, 1, height, false, style, [])] + tail, k + 1, hasLabels, height, style)
  {
    var blocks := [b, Block(Left, 1, height, false, style, [])] + tail;
    forall j | 1 <= j < k + 1
      ensures SideColumnShape(blocks[2 * j], hasLabels, height, style)
      ensures blocks[2 * j + 1] == Block(Left, 1, height, false, style, [])
    {
      assert blocks[2 * j] == tail[2 * (j - 1)] && blocks[2 * j + 1] == tail[2 * (j - 1) + 1];
    }
  }

  /** A side column: right-aligned, as high as given, no file names, the column's style, and the empty header row first. */
  predicate SideColumnShape(b: Block, hasLabels: bool, height: nat, style: Option<Styles.Style>) {
    && b.align == Right && b.height == height && !b.hasFiles && b.style == style
    && (hasLabels && height > 0 ==> b.rows != [] && b.rows[0] == Line([], 0))
  }

  lemma SideBlockShape(side: Side, shown: seq<Files.File>, hasLabels: bool, height: nat,
                       style: Option<Styles.Style>, colors: Config.Colors, inp: Inputs)
    ensures SideColumnShape(SideBlock(side, shown, hasLabels, height, style, colors, inp), hasLabels, height, style)
  {
    var lines := Header(hasLabels) + SideLines(side, shown, colors, inp);
    if hasLabels && height > 0 {
      assert lines[0] == Line([], 0);
    }
  }

  /**
   * The names column of a group: it holds the file names, is in the
   * column's style, and has one row per shown file plus the header row
   * (the label) when some group has a label and the `+N entries` row when
   * the group was cut.
   */
  lemma NamesBlockShape(g: GroupValue, config: Config.Root, hasLabels: bool, inp: Inputs)
    ensures var names := NamesBlock(g, config, hasLabels, inp);
            var shown := Shown(|g.files|, config.grid.maxRows);
            && names.hasFiles && names.style == StyleOf(g.column.color) && names.height == |names.rows|
            && names.height == (if hasLabels then 1 else 0) + shown.0 + (if shown.1.Some? then 1 else 0)
            && (hasLabels ==> names.rows[0] == LineOf(if g.column.labelText.Some? then [Span(g.column.labelText.value, StyleOf(Config.ColorsOf(config).columnLabel))] else [], inp.charWidth))
  {
    var colors := Config.ColorsOf(config);
    var shown := Shown(|g.files|, config.grid.maxRows);
    var maxWidth := g.column.maxNameWidth.Or(config.grid.maxNameWidth);
    var lines := LabelHeader(hasLabels, g.column.labelText, colors, inp.charWidth)
      + NameLines(g.files[..shown.0], maxWidth, LsColors(config, inp), colors, inp)
      + MoreLines(shown.1, colors, inp.charWidth);
    assert NamesBlock(g, config, hasLabels, inp) == Built(true, lines).(style := StyleOf(g.column.color));
  }

  /**
   * The columns of one group, in order: a right-aligned column and a
   * padding column of width 1 for each side that has something to show,
   * both as high as the names column; the indicators column, right-aligned,
   * when some shown file has an indicator; and last the names column. With
   * labels, each side and indicators column starts with the empty header row.
   */
  lemma GroupColumnsLayout(g: GroupValue, config: Config.Root, hasLabels: bool, inp: Inputs)
    ensures var shown := g.files[..Shown(|g.files|, config.grid.maxRows).0];
            GroupLayout(GroupColumns(g, config, hasLabels, inp), NamesBlock(g, config, hasLabels, inp),
                        PresentCount(SIDES, shown),
                        exists i :: 0 <= i < |shown| && Indicates(inp.env, shown[i], Config.ColorsOf(config).styles),
                        hasLabels, StyleOf(g.column.color))
  {
    var colors := Config.ColorsOf(config);
    var shown := g.files[..Shown(|g.files|, config.grid.maxRows).0];
    var names := NamesBlock(g, config, hasLabels, inp);
    var style := StyleOf(g.column.color);
    var sides := SideBlocks(SIDES, shown, hasLabels, names.height, style, colors, inp);
    var indicators := IndicatorBlocks(shown, hasLabels, style, colors, inp);
    SideBlocksShape(SIDES, shown, hasLabels, names.height, style, colors, inp);
    IndicatorBlocksShape(shown, hasLabels, style, colors, inp);
    assert GroupColumns(g, config, hasLabels, inp) == sides + indicators + [names];
    LayoutOfParts(sides, indicators, names, PresentCount(SIDES, shown), hasLabels, style);
  }

  /** The indicators column is there iff some shown file has an indicator; it is right-aligned, after the empty header row. */
  lemma IndicatorBlocksShape(shown: seq<Files.File>, hasLabels: bool, style: Option<Styles.Style>, colors: Config.Colors, inp: Inputs)
    ensures var ib := IndicatorBlocks(shown, hasLabels, style, colors, inp);
            && |ib| <= 1
            && (ib != [] <==> exists i :: 0 <= i < |shown| && Indicates(inp.env, shown[i], colors.styles))
            && (ib != [] ==> ib[0].align == Right && !ib[0].hasFiles && ib[0].style == style
                             && (hasLabels ==> ib[0].rows != [] && ib[0].rows[0] == Line([], 0)))
  {
    var ib := IndicatorBlocks(shown, hasLabels, style, colors, inp);
    if ib != [] && hasLabels {
      assert ib[0].rows[0] == (Header(hasLabels) + IndicatorLines(shown, colors, inp))[0];
    }
  }

  /**
   * The layout of a group's columns: `k` side columns each followed by its
   * padding column, the indicators column when `indicated`, and last the
   * names column.
   */
  predicate GroupLayout(cs: seq<Block>, names: Block, k: nat, indicated: bool, hasLabels: bool, style: Option<Styles.Style>) {
    && |cs| == 2 * k + (if indicated then 1 else 0) + 1
    && cs[|cs| - 1] == names
    && (forall j :: 0 <= j < k ==> SideColumnShape(cs[2 * j], hasLabels, names.height, style))
    && (forall j :: 0 <= j < k ==> cs[2 * j + 1] == Block(Left, 1, names.height, false, style, []))
    && (indicated ==> cs[2 * k].align == Right && !cs[2 * k].hasFiles && cs[2 * k].style == style
                      && (hasLabels ==> cs[2 * k].rows != [] && cs[2 * k].rows[0] == Line([], 0)))
  }

  /** The side columns, then at most one indicators column, then the names column. */
  lemma LayoutOfParts(sides: seq<Block>, indicators: seq<Block>, names: Block, k: nat, hasLabels: bool, style: Option<Styles.Style>)
    requires SideShape(sides, k, hasLabels, names.height, style) && |indicators| <= 1
    requires indicators != [] ==> indicators[0].align == Right && !indicators[0].hasFiles && indicators[0].style == style
                                  && (hasLabels ==> indicators[0].rows != [] && indicators[0].rows[0] == Line([], 0))
    ensures GroupLayout(sides + indicators + [names], names, k, indicators != [], hasLabels, style)
  {
    var cs := sides + indicators + [names];
    forall j | 0 <= j < k
      ensures SideColumnShape(cs[2 * j], hasLabels, names.height, style)
      ensures cs[2 * j + 1] == Block(Left, 1, names.height, false, style, [])
    {
      assert cs[2 * j] == sides[2 * j] && cs[2 * j + 1] == sides[2 * j + 1];
    }
    if indicators != [] {
      assert cs[2 * k] == indicators[0];
    }
  }

  /** `files.iter().any(filter)` of `extra_column!`. */
  method AnyData(side: Side, files: seq<Files.File>) returns (any: bool)
    ensures any <==> Present(side, files)
  {
    var i := 0;
    while i < |files|
      invariant i <= |files|
      invariant !Present(side, files[..i])
    {
      if HasData(side, files[i]) {
        return true;
      }
      assert forall j :: 0 <= j < i ==> files[..i + 1][j] == files[..i][j];
      i := i + 1;
    }
    assert files[..i] == files;
    return false;
  }

  /** `extra_column!`: a new column, with the empty header row, when the side column is present. */
  method ExtraColumn(present: bool, hasLabels: bool) returns (c: Column?)
    ensures c != null <==> present
    ensures c != null ==> fresh(c) && c.Value() == Built(false, Header(hasLabels))
  {
    if !present {
      return null;
    }
    c := new Column.New(false);
    if hasLabels {
      var row := new Row();
      c.Push(row);
      BuiltSnoc(false, [], row.Value());
    }
  }

  /** The row of one file in a side column. */
  method SideRow(side: Side, f: Files.File, colors: Config.Colors, inp: Inputs) returns (row: Row)
    ensures fresh(row) && row.Value() == LineOf(SideSpans(side, f, colors, inp), inp.charWidth)
  {
    row := new Row();
    var spans := SideSpans(side, f, colors, inp);
    match side {
      case Added =>
        if f.gitChanges.Some? && f.gitChanges.value.insertions > 0 {
          var style := StyleOf(colors.diffAdded).Or(Some(GREEN));
          row.AddText("+" + DecimalString(f.gitChanges.value.insertions), style, inp.charWidth);
        }
      case Deleted =>
        if f.gitChanges.Some? && f.gitChanges.value.deletions > 0 {
          var style := StyleOf(colors.diffDeleted).Or(Some(RED));
          row.AddText("-" + DecimalString(f.gitChanges.value.deletions), style, inp.charWidth);
        }
      case DiskUsage =>
        if f.treeInfo.Some? {
          var size := FormatSize(f.treeInfo.value.diskUsage);
          row.AddText(size, inp.diskUsageStyle, inp.charWidth);
        }
    }
    assert row.spans == [] || row.spans[..0] == [];
  }

  /**
   * The loop over the style rules for one file: the colour of each rule
   * that applies is combined into the name style, and its indicator, if
   * any, is added to the indicator row.
   */
  method ApplyStyles(env: Matchers.Env, f: Files.File, rules: seq<Config.Style>, init: Styles.Style, indicator: Row,
                     charWidth: Escapes.CharWidth)
    returns (style: Styles.Style, indicated: bool)
    requires indicator.spans == [] && indicator.width == 0
    modifies indicator
    ensures style == RulesStyle(env, f, rules, init)
    ensures indicated <==> Indicates(env, f, rules)
    ensures indicator.Value() == LineOf(RulesIndicator(env, f, rules), charWidth)
  {
    style := init;
    indicated := false;
    var i := 0;
    while i < |rules|
      invariant i <= |rules|
      invariant style == RulesStyle(env, f, rules[..i], init)
      invariant indicated <==> RulesIndicator(env, f, rules[..i]) != []
      invariant indicator.Value() == LineOf(RulesIndicator(env, f, rules[..i]), charWidth)
    {
      assert rules[..i + 1][..i] == rules[..i];
      var rule := rules[i];
      var matched, _ := Matchers.IsMatch(env, EntryOf(f), true, rule.matchers);
      if matched {
        if rule.color.Some? {
          style := Styles.Combine(style, rule.color.value.style);
        }
        if rule.indicator.Some? {
          indicated := true;
          var (text, s) := rule.indicator.value.Get();
          ghost var before := indicator.spans;
          indicator.AddText(text, s, charWidth);
          assert indicator.spans[..|indicator.spans| - 1] == before;
        }
      }
      i := i + 1;
    }
    assert rules[..i] == rules;
    IndicatorIff(env, f, rules);
  }

  /** One iteration of the loop over the shown files: one row pushed into each column being built. */
  method RenderFile(f: Files.File, maxWidth: Option<Config.NonZero>, ls: Option<LsLookup>, colors: Config.Colors, inp: Inputs,
                    added: Column?, deleted: Column?, disk: Column?, names: Column, indicators: Column)
    returns (indicated: bool)
    requires Distinct(added, deleted, disk, names, indicators)
    modifies added, deleted, disk, names, indicators
    ensures ValueOf(added) == PushedSide(old(ValueOf(added)), Added, f, colors, inp)
    ensures ValueOf(deleted) == PushedSide(old(ValueOf(deleted)), Deleted, f, colors, inp)
    ensures ValueOf(disk) == PushedSide(old(ValueOf(disk)), DiskUsage, f, colors, inp)
    ensures names.Value() == Pushed(old(names.Value()), LineOf(NameSpans(f, maxWidth, ls, colors, inp), inp.charWidth))
    ensures indicators.Value() == Pushed(old(indicators.Value()), LineOf(RulesIndicator(inp.env, f, colors.styles), inp.charWidth))
    ensures indicated <==> Indicates(inp.env, f, colors.styles)
  {
    PushSide(Added, f, colors, inp, added);
    PushSide(Deleted, f, colors, inp, deleted);
    PushSide(DiskUsage, f, colors, inp, disk);
    indicated := PushName(f, maxWidth, ls, colors, inp, names, indicators);
  }

  /** The cell of one file pushed into a side column, when that column exists. */
  method PushSide(side: Side, f: Files.File, colors: Config.Colors, inp: Inputs, column: Column?)
    modifies column
    ensures ValueOf(column) == PushedSide(old(ValueOf(column)), side, f, colors, inp)
  {
    if column != null {
      var row := SideRow(side, f, colors, inp);
      column.Push(row);
    }
  }

  /** The name of one file pushed into the names column, and its indicators into the indicators column. */
  method PushName(f: Files.File, maxWidth: Option<Config.NonZero>, ls: Option<LsLookup>, colors: Config.Colors, inp: Inputs,
                  names: Column, indicators: Column)
    returns (indicated: bool)
    requires names != indicators
    modifies names, indicators
    ensures names.Value() == Pushed(old(names.Value()), LineOf(NameSpans(f, maxWidth, ls, colors, inp), inp.charWidth))
    ensures indicators.Value() == Pushed(old(indicators.Value()), LineOf(RulesIndicator(inp.env, f, colors.styles), inp.charWidth))
    ensures indicated <==> Indicates(inp.env, f, colors.styles)
  {
    var indicator := new Row();
    var nameStyle := Styles.Plain;
    if ls.Some? {
      var lsStyle := ls.value(f.fileName, f.metadata);
      if lsStyle.Some? {
        nameStyle := Styles.Combine(nameStyle, lsStyle.value);
      }
    }
    nameStyle, indicated := ApplyStyles(inp.env, f, colors.styles, nameStyle, indicator, inp.charWidth);
    var row := NameRow(f, maxWidth, ls, colors, inp, nameStyle);
    names.Push(row);
    indicators.Push(indicator);
  }

  /** The row of one file in the names column, given the name style the rules gave it. */
  method NameRow(f: Files.File, maxWidth: Option<Config.NonZero>, ls: Option<LsLookup>, colors: Config.Colors, inp: Inputs,
                 nameStyle: Styles.Style)
    returns (row: Row)
    requires nameStyle == RulesStyle(inp.env, f, colors.styles, BaseStyle(ls, f))
    ensures fresh(row) && row.Value() == LineOf(NameSpans(f, maxWidth, ls, colors, inp), inp.charWidth)
  {
    var quoted := Strings.Format(f.fileName, maxWidth, inp.charWidth, Strings.FAST_LOW_AS_WRITTEN);
    row := NameCellRow(quoted.0, quoted.1, nameStyle, colors, inp.charWidth);
  }

  /** The name cell added to a new row span by span. */
  method NameCellRow(text: string, cut: bool, style: Styles.Style, colors: Config.Colors, charWidth: Escapes.CharWidth)
    returns (row: Row)
    ensures fresh(row) && row.Value() == LineOf(NameCell(text, cut, style, colors), charWidth)
  {
    row := new Row();
    assert row.Valid(charWidth);
    row.AddText(text, if style == Styles.Plain then None else Some(style), charWidth);
    if cut {
      row.AddText(ELLIPSIS, StyleOf(colors.nameEllipsis), charWidth);
    }
    assert row.spans == NameCell(text, cut, style, colors);
  }

  /**
   * A side column finished and appended: right-aligned, in the column's
   * style, cut to the names column's height, then a padding column of
   * width 1 in the same style.
   */
  method FinishSide(side: Side, column: Column?, files: seq<Files.File>, hasLabels: bool, height: nat, style: Option<Styles.Style>,
                    colors: Config.Colors, inp: Inputs)
    returns (blocks: seq<Block>)
    requires column != null <==> Present(side, files)
    requires column != null ==> column.Value() == Built(false, Header(hasLabels) + SideLines(side, files, colors, inp))
    modifies column
    ensures blocks == SideBlocks([side], files, hasLabels, height, style, colors, inp)
  {
    if column == null {
      return [];
    }
    column.AlignRight();
    column.SetStyle(style);
    column.SetHeight(height);
    var padding := new Column.Padding(1, height, style);
    blocks := [column.Value(), padding.Value()];
  }

  /** The three side columns in their order, as `SideBlocks` lists them. */
  lemma SideBlocksOfSides(shown: seq<Files.File>, hasLabels: bool, height: nat, style: Option<Styles.Style>,
                          colors: Config.Colors, inp: Inputs)
    ensures SideBlocks(SIDES, shown, hasLabels, height, style, colors, inp) ==
      SideBlocks([Added], shown, hasLabels, height, style, colors, inp)
      + SideBlocks([Deleted], shown, hasLabels, height, style, colors, inp)
      + SideBlocks([DiskUsage], shown, hasLabels, height, style, colors, inp)
  {
    assert SIDES[1..] == [Deleted, DiskUsage];
    assert SIDES[1..][1..] == [DiskUsage];
  }

  /**
   * `render_group`: the columns of one group, appended in this order: the
   * present side columns, each with its padding column, the indicators
   * column when some file has an indicator, and the names column.
   */
  method RenderGroup(g: GroupValue, config: Config.Root, hasLabels: bool, inp: Inputs) returns (blocks: seq<Block>)
    ensures blocks == GroupColumns(g, config, hasLabels, inp)
  {
    var colors := Config.ColorsOf(config);
    var cw := inp.charWidth;
    var files := g.files;
    var more: Option<nat> := None;
    if config.grid.maxRows.Some? && config.grid.maxRows.value < |g.files| && |g.files| > 2 {
      files := g.files[..config.grid.maxRows.value - 1];
      more := Some(|g.files| - config.grid.maxRows.value + 1);
    }
    assert files == g.files[..Shown(|g.files|, config.grid.maxRows).0] && more == Shown(|g.files|, config.grid.maxRows).1;

    var ls := LsColors(config, inp);
    var maxWidth := g.column.maxNameWidth.Or(config.grid.maxNameWidth);
    var added, deleted, disk, names, indicators, hasIndicators := BuildColumns(files, more, maxWidth, ls, colors, inp, hasLabels, g.column.labelText);

    ghost var nameLines := LabelHeader(hasLabels, g.column.labelText, colors, cw)
      + NameLines(files, maxWidth, ls, colors, inp) + MoreLines(more, colors, cw);
    blocks := FinishColumns(files, hasLabels, StyleOf(g.column.color), colors, inp, added, deleted, disk, names, nameLines, indicators, hasIndicators);
  }

  /**
   * The columns of a group finished and appended: the side columns, the
   * indicators column, and last the names column in the group's style,
   * all cut or stretched to the names column's height.
   */
  method FinishColumns(files: seq<Files.File>, hasLabels: bool, style: Option<Styles.Style>, colors: Config.Colors, inp: Inputs,
                       added: Column?, deleted: Column?, disk: Column?, names: Column, ghost nameLines: seq<Line>,
                       indicators: Column, hasIndicators: bool)
    returns (blocks: seq<Block>)
    requires names != indicators
    requires added != null ==> added != names && added != indicators
    requires deleted != null ==> deleted != names && deleted != indicators && deleted != added
    requires disk != null ==> disk != names && disk != indicators && disk != added && disk != deleted
    requires added != null <==> Present(Added, files)
    requires deleted != null <==> Present(Deleted, files)
    requires disk != null <==> Present(DiskUsage, files)
    requires added != null ==> added.Value() == Built(false, Header(hasLabels) + SideLines(Added, files, colors, inp))
    requires deleted != null ==> deleted.Value() == Built(false, Header(hasLabels) + SideLines(Deleted, files, colors, inp))
    requires disk != null ==> disk.Value() == Built(false, Header(hasLabels) + SideLines(DiskUsage, files, colors, inp))
    requires names.Value() == Built(true, nameLines)
    requires indicators.Value() == Built(false, Header(hasLabels) + IndicatorLines(files, colors, inp))
    requires hasIndicators <==> exists j :: 0 <= j < |files| && Indicates(inp.env, files[j], colors.styles)
    modifies added, deleted, disk, names, indicators
    ensures blocks == SideBlocks(SIDES, files, hasLabels, |nameLines|, style, colors, inp)
      + IndicatorBlocks(files, hasLabels, style, colors, inp) + [Built(true, nameLines).(style := style)]
  {
    var height := names.height;
    blocks := FinishSides(files, hasLabels, height, style, colors, inp, added, deleted, disk);
    var part := FinishIndicators(files, hasLabels, style, colors, inp, hasIndicators, indicators);
    blocks := blocks + part;
    names.SetStyle(style);
    blocks := blocks + [names.Value()];
  }

  /** The columns of a group, each with its header row and one row per shown file, before they are finished. */
  method BuildColumns(files: seq<Files.File>, more: Option<nat>, maxWidth: Option<Config.NonZero>, ls: Option<LsLookup>,
                      colors: Config.Colors, inp: Inputs, hasLabels: bool, labelText: Option<string>)
    returns (added: Column?, deleted: Column?, disk: Column?, names: Column, indicators: Column, hasIndicators: bool)
    ensures fresh(names) && fresh(indicators) && names != indicators
    ensures added != null ==> fresh(added) && added != names && added != indicators
    ensures deleted != null ==> fresh(deleted) && deleted != names && deleted != indicators && deleted != added
    ensures disk != null ==> fresh(disk) && disk != names && disk != indicators && disk != added && disk != deleted
    ensures added != null <==> Present(Added, files)
    ensures deleted != null <==> Present(Deleted, files)
    ensures disk != null <==> Present(DiskUsage, files)
    ensures added != null ==> added.Value() == Built(false, Header(hasLabels) + SideLines(Added, files, colors, inp))
    ensures deleted != null ==> deleted.Value() == Built(false, Header(hasLabels) + SideLines(Deleted, files, colors, inp))
    ensures disk != null ==> disk.Value() == Built(false, Header(hasLabels) + SideLines(DiskUsage, files, colors, inp))
    ensures names.Value() == Built(true, LabelHeader(hasLabels, labelText, colors, inp.charWidth)
      + NameLines(files, maxWidth, ls, colors, inp) + MoreLines(more, colors, inp.charWidth))
    ensures indicators.Value() == Built(false, Header(hasLabels) + IndicatorLines(files, colors, inp))
    ensures hasIndicators <==> exists j :: 0 <= j < |files| && Indicates(inp.env, files[j], colors.styles)
  {
    added, deleted, disk := StartSides(files, hasLabels);
    names, indicators := StartNames(hasLabels, labelText, colors, inp.charWidth);
    FilledStart(maxWidth, ls, colors, inp, hasLabels, labelText, added, deleted, disk, names, indicators);
    hasIndicators := FillColumns(files, maxWidth, ls, colors, inp, hasLabels, labelText, added, deleted, disk, names, indicators);
    AnyIndicatesIff(inp.env, files, colors.styles);
    PushMore(names, LabelHeader(hasLabels, labelText, colors, inp.charWidth) + NameLines(files, maxWidth, ls, colors, inp), more, colors, inp.charWidth);
  }

  /** The `+N entries` row pushed last into a truncated names column. */
  method PushMore(names: Column, ghost lines: seq<Line>, more: Option<nat>, colors: Config.Colors, charWidth: Escapes.CharWidth)
    requires names.Value() == Built(true, lines)
    modifies names
    ensures names.Value() == Built(true, lines + MoreLines(more, colors, charWidth))
  {
    if more.Some? {
      var row := new Row();
      row.AddText("+" + DecimalString(more.value) + " entries", StyleOf(colors.moreEntries), charWidth);
      assert row.Value() == MoreLines(more, colors, charWidth)[0];
      names.Push(row);
      BuiltSnoc(true, lines, row.Value());
    } else {
      assert lines + MoreLines(more, colors, charWidth) == lines;
    }
  }

  /** The side columns a group starts with: those present, each with the empty header row. */
  method StartSides(files: seq<Files.File>, hasLabels: bool) returns (added: Column?, deleted: Column?, disk: Column?)
    ensures added != null ==> fresh(added)
    ensures deleted != null ==> fresh(deleted) && deleted != added
    ensures disk != null ==> fresh(disk) && disk != added && disk != deleted
    ensures added != null <==> Present(Added, files)
    ensures deleted != null <==> Present(Deleted, files)
    ensures disk != null <==> Present(DiskUsage, files)
    ensures added != null ==> added.Value() == Built(false, Header(hasLabels))
    ensures deleted != null ==> deleted.Value() == Built(false, Header(hasLabels))
    ensures disk != null ==> disk.Value() == Built(false, Header(hasLabels))
  {
    var any := AnyData(Added, files);
    added := ExtraColumn(any, hasLabels);
    any := AnyData(Deleted, files);
    deleted := ExtraColumn(any, hasLabels);
    any := AnyData(DiskUsage, files);
    disk := ExtraColumn(any, hasLabels);
  }

  /** The names column with the label row, and the indicators column with the empty header row. */
  method StartNames(hasLabels: bool, labelText: Option<string>, colors: Config.Colors, charWidth: Escapes.CharWidth)
    returns (names: Column, indicators: Column)
    ensures fresh(names) && fresh(indicators) && names != indicators
    ensures names.Value() == Built(true, LabelHeader(hasLabels, labelText, colors, charWidth))
    ensures indicators.Value() == Built(false, Header(hasLabels))
  {
    names := new Column.New(true);
    indicators := new Column.New(false);
    if hasLabels {
      var empty := new Row();
      indicators.Push(empty);
      BuiltSnoc(false, [], empty.Value());
      var row := new Row();
      if labelText.Some? {
        row.AddText(labelText.value, StyleOf(colors.columnLabel), charWidth);
      }
      assert row.Value() == LabelHeader(hasLabels, labelText, colors, charWidth)[0];
      names.Push(row);
      BuiltSnoc(true, [], row.Value());
    }
  }

  /** The loop over the shown files: one row per file in every column of the group. */
  method FillColumns(files: seq<Files.File>, maxWidth: Option<Config.NonZero>, ls: Option<LsLookup>, colors: Config.Colors,
                     inp: Inputs, hasLabels: bool, labelText: Option<string>,
                     added: Column?, deleted: Column?, disk: Column?, names: Column, indicators: Column)
    returns (hasIndicators: bool)
    requires Distinct(added, deleted, disk, names, indicators)
    requires Filled([], maxWidth, ls, colors, inp, hasLabels, labelText, added, deleted, disk, names, indicators)
    modifies added, deleted, disk, names, indicators
    ensures Filled(files, maxWidth, ls, colors, inp, hasLabels, labelText, added, deleted, disk, names, indicators)
    ensures hasIndicators == AnyIndicates(inp.env, files, colors.styles)
  {
    hasIndicators := false;
    var i := 0;
    assert files[..0] == [];
    while i < |files|
      invariant i <= |files|
      invariant Filled(files[..i], maxWidth, ls, colors, inp, hasLabels, labelText, added, deleted, disk, names, indicators)
      invariant hasIndicators == AnyIndicates(inp.env, files[..i], colors.styles)
    {
      hasIndicators := FillRow(files, i, maxWidth, ls, colors, inp, hasLabels, labelText, added, deleted, disk, names, indicators, hasIndicators);
      i := i + 1;
    }
    assert files[..i] == files;
  }

  /** Columns holding only their header rows are filled with no file yet. */
  lemma FilledStart(maxWidth: Option<Config.NonZero>, ls: Option<LsLookup>, colors: Config.Colors,
                    inp: Inputs, hasLabels: bool, labelText: Option<string>,
                    added: Column?, deleted: Column?, disk: Column?, names: Column, indicators: Column)
    requires added != null ==> added.Value() == Built(false, Header(hasLabels))
    requires deleted != null ==> deleted.Value() == Built(false, Header(hasLabels))
    requires disk != null ==> disk.Value() == Built(false, Header(hasLabels))
    requires names.Value() == Built(true, LabelHeader(hasLabels, labelText, colors, inp.charWidth))
    requires indicators.Value() == Built(false, Header(hasLabels))
    ensures Filled([], maxWidth, ls, colors, inp, hasLabels, labelText, added, deleted, disk, names, indicators)
  {
    var header := Header(hasLabels);
    var labelRows := LabelHeader(hasLabels, labelText, colors, inp.charWidth);
    assert header + [] == header && labelRows + [] == labelRows;
    assert SideLines(Added, [], colors, inp) == [] && SideLines(Deleted, [], colors, inp) == [];
    assert SideLines(DiskUsage, [], colors, inp) == [] && IndicatorLines([], colors, inp) == [];
    assert NameLines([], maxWidth, ls, colors, inp) == [];
  }

  /** The columns being built are five different objects (or absent). */
  predicate Distinct(added: Column?, deleted: Column?, disk: Column?, names: Column, indicators: Column) {
    && names != indicators
    && (added != null ==> added != names && added != indicators)
    && (deleted != null ==> deleted != names && deleted != indicators && deleted != added)
    && (disk != null ==> disk != names && disk != indicators && disk != added && disk != deleted)
  }

  /** Every column being built holds its header row and one row per file of `shown`. */
  predicate Filled(shown: seq<Files.File>, maxWidth: Option<Config.NonZero>, ls: Option<LsLookup>, colors: Config.Colors,
                   inp: Inputs, hasLabels: bool, labelText: Option<string>,
                   added: Column?, deleted: Column?, disk: Column?, names: Column, indicators: Column)
    reads added, deleted, disk, names, indicators
  {
    FilledBlocks(shown, maxWidth, ls, colors, inp, hasLabels, labelText,
                 ValueOf(added), ValueOf(deleted), ValueOf(disk), names.Value(), indicators.Value())
  }

  /** What a column that may be absent holds. */
  function ValueOf(column: Column?): Option<Block>
    reads column
  {
    if column == null then None else Some(column.Value())
  }

  /** `Filled`, on the values the columns hold. */
  predicate FilledBlocks(shown: seq<Files.File>, maxWidth: Option<Config.NonZero>, ls: Option<LsLookup>, colors: Config.Colors,
                         inp: Inputs, hasLabels: bool, labelText: Option<string>,
                         added: Option<Block>, deleted: Option<Block>, disk: Option<Block>, names: Block, indicators: Block)
  {
    && names == Built(true, LabelHeader(hasLabels, labelText, colors, inp.charWidth) + NameLines(shown, maxWidth, ls, colors, inp))
    && indicators == Built(false, Header(hasLabels) + IndicatorLines(shown, colors, inp))
    && (added.Some? ==> added.value == Built(false, Header(hasLabels) + SideLines(Added, shown, colors, inp)))
    && (deleted.Some? ==> deleted.value == Built(false, Header(hasLabels) + SideLines(Deleted, shown, colors, inp)))
    && (disk.Some? ==> disk.value == Built(false, Header(hasLabels) + SideLines(DiskUsage, shown, colors, inp)))
  }

  /** A side column that may be absent, after the cell of `f` is pushed into it. */
  function PushedSide(column: Option<Block>, side: Side, f: Files.File, colors: Config.Colors, inp: Inputs): Option<Block> {
    if column.None? then None else Some(Pushed(column.value, LineOf(SideSpans(side, f, colors, inp), inp.charWidth)))
  }

  /** Pushing the rows of the next file keeps every column filled, now with one more file. */
  lemma FilledStep(files: seq<Files.File>, i: nat, maxWidth: Option<Config.NonZero>, ls: Option<LsLookup>, colors: Config.Colors,
                   inp: Inputs, hasLabels: bool, labelText: Option<string>,
                   added: Option<Block>, deleted: Option<Block>, disk: Option<Block>, names: Block, indicators: Block)
    requires i < |files|
    requires FilledBlocks(files[..i], maxWidth, ls, colors, inp, hasLabels, labelText, added, deleted, disk, names, indicators)
    ensures FilledBlocks(files[..i + 1], maxWidth, ls, colors, inp, hasLabels, labelText,
                         PushedSide(added, Added, files[i], colors, inp),
                         PushedSide(deleted, Deleted, files[i], colors, inp),
                         PushedSide(disk, DiskUsage, files[i], colors, inp),
                         Pushed(names, LineOf(NameSpans(files[i], maxWidth, ls, colors, inp), inp.charWidth)),
                         Pushed(indicators, LineOf(RulesIndicator(inp.env, files[i], colors.styles), inp.charWidth)))
  {
    NameStep(files, i, maxWidth, ls, colors, inp, hasLabels, labelText);
    IndicatorStep(files, i, colors, inp, hasLabels);
    SideStep(Added, files, i, colors, inp, hasLabels);
    SideStep(Deleted, files, i, colors, inp, hasLabels);
    SideStep(DiskUsage, files, i, colors, inp, hasLabels);
  }

  /** One round of the loop over the shown files, against the rows of the files before it. */
  method FillRow(files: seq<Files.File>, i: nat, maxWidth: Option<Config.NonZero>, ls: Option<LsLookup>, colors: Config.Colors,
                 inp: Inputs, hasLabels: bool, labelText: Option<string>,
                 added: Column?, deleted: Column?, disk: Column?, names: Column, indicators: Column, hasIndicators: bool)
    returns (hasIndicators': bool)
    requires i < |files|
    requires Distinct(added, deleted, disk, names, indicators)
    requires Filled(files[..i], maxWidth, ls, colors, inp, hasLabels, labelText, added, deleted, disk, names, indicators)
    requires hasIndicators == AnyIndicates(inp.env, files[..i], colors.styles)
    modifies added, deleted, disk, names, indicators
    ensures Filled(files[..i + 1], maxWidth, ls, colors, inp, hasLabels, labelText, added, deleted, disk, names, indicators)
    ensures hasIndicators' == AnyIndicates(inp.env, files[..i + 1], colors.styles)
  {
    FilledStep(files, i, maxWidth, ls, colors, inp, hasLabels, labelText,
               ValueOf(added), ValueOf(deleted), ValueOf(disk), names.Value(), indicators.Value());
    assert files[..i + 1][..i] == files[..i];
    var indicated := RenderFile(files[i], maxWidth, ls, colors, inp, added, deleted, disk, names, indicators);
    hasIndicators' := hasIndicators || indicated;
  }

  /** The side columns finished and appended, in their order. */
  method FinishSides(files: seq<Files.File>, hasLabels: bool, height: nat, style: Option<Styles.Style>, colors: Config.Colors, inp: Inputs,
                     added: Column?, deleted: Column?, disk: Column?)
    returns (blocks: seq<Block>)
    requires added != null ==> added.Value() == Built(false, Header(hasLabels) + SideLines(Added, files, colors, inp))
    requires deleted != null ==> deleted.Value() == Built(false, Header(hasLabels) + SideLines(Deleted, files, colors, inp))
    requires disk != null ==> disk.Value() == Built(false, Header(hasLabels) + SideLines(DiskUsage, files, colors, inp))
    requires added != null <==> Present(Added, files)
    requires deleted != null <==> Present(Deleted, files)
    requires disk != null <==> Present(DiskUsage, files)
    requires deleted != null ==> deleted != added
    requires disk != null ==> disk != added && disk != deleted
    modifies added, deleted, disk
    ensures blocks == SideBlocks(SIDES, files, hasLabels, height, style, colors, inp)
  {
    SideBlocksOfSides(files, hasLabels, height, style, colors, inp);
    blocks := FinishSide(Added, added, files, hasLabels, height, style, colors, inp);
    var part := FinishSide(Deleted, deleted, files, hasLabels, height, style, colors, inp);
    blocks := blocks + part;
    part := FinishSide(DiskUsage, disk, files, hasLabels, height, style, colors, inp);
    blocks := blocks + part;
  }

  /** The indicators column finished and appended, when some file has an indicator. */
  method FinishIndicators(files: seq<Files.File>, hasLabels: bool, style: Option<Styles.Style>, colors: Config.Colors, inp: Inputs,
                          hasIndicators: bool, indicators: Column)
    returns (blocks: seq<Block>)
    requires indicators.Value() == Built(false, Header(hasLabels) + IndicatorLines(files, colors, inp))
    requires hasIndicators <==> exists j :: 0 <= j < |files| && Indicates(inp.env, files[j], colors.styles)
    modifies indicators
    ensures blocks == IndicatorBlocks(files, hasLabels, style, colors, inp)
  {
    blocks := [];
    if hasIndicators {
      indicators.AlignRight();
      indicators.SetStyle(style);
      blocks := [indicators.Value()];
    }
  }

  /** Each round of the loop over the files pushes the file's row onto the names column. */
  lemma NameStep(files: seq<Files.File>, i: nat, maxWidth: Option<Config.NonZero>, ls: Option<LsLookup>, colors: Config.Colors,
                 inp: Inputs, hasLabels: bool, labelText: Option<string>)
    requires i < |files|
    ensures Built(true, LabelHeader(hasLabels, labelText, colors, inp.charWidth) + NameLines(files[..i + 1], maxWidth, ls, colors, inp))
      == Pushed(Built(true, LabelHeader(hasLabels, labelText, colors, inp.charWidth) + NameLines(files[..i], maxWidth, ls, colors, inp)),
                LineOf(NameSpans(files[i], maxWidth, ls, colors, inp), inp.charWidth))
  {
    assert files[..i + 1][..i] == files[..i];
    var prev := LabelHeader(hasLabels, labelText, colors, inp.charWidth) + NameLines(files[..i], maxWidth, ls, colors, inp);
    var l := LineOf(NameSpans(files[i], maxWidth, ls, colors, inp), inp.charWidth);
    assert LabelHeader(hasLabels, labelText, colors, inp.charWidth) + NameLines(files[..i + 1], maxWidth, ls, colors, inp) == prev + [l];
    BuiltSnoc(true, prev, l);
  }

  /** Each round of the loop over the files pushes the file's indicator row onto the indicators column. */
  lemma IndicatorStep(files: seq<Files.File>, i: nat, colors: Config.Colors, inp: Inputs, hasLabels: bool)
    requires i < |files|
    ensures Built(false, Header(hasLabels) + IndicatorLines(files[..i + 1], colors, inp))
      == Pushed(Built(false, Header(hasLabels) + IndicatorLines(files[..i], colors, inp)),
                LineOf(RulesIndicator(inp.env, files[i], colors.styles), inp.charWidth))
  {
    assert files[..i + 1][..i] == files[..i];
    var prev := Header(hasLabels) + IndicatorLines(files[..i], colors, inp);
    var l := LineOf(RulesIndicator(inp.env, files[i], colors.styles), inp.charWidth);
    assert Header(hasLabels) + IndicatorLines(files[..i + 1], colors, inp) == prev + [l];
    BuiltSnoc(false, prev, l);
  }

  /** Each round of the loop over the files pushes the file's cell onto a side column. */
  lemma SideStep(side: Side, files: seq<Files.File>, i: nat, colors: Config.Colors, inp: Inputs, hasLabels: bool)
    requires i < |files|
    ensures Built(false, Header(hasLabels) + SideLines(side, files[..i + 1], colors, inp))
      == Pushed(Built(false, Header(hasLabels) + SideLines(side, files[..i], colors, inp)),
                LineOf(SideSpans(side, files[i], colors, inp), inp.charWidth))
  {
    assert files[..i + 1][..i] == files[..i];
    var prev := Header(hasLabels) + SideLines(side, files[..i], colors, inp);
    var l := LineOf(SideSpans(side, files[i], colors, inp), inp.charWidth);
    assert Header(hasLabels) + SideLines(side, files[..i + 1], colors, inp) == prev + [l];
    BuiltSnoc(false, prev, l);
  }

  /** Some of the files has an indicator, counted from the back. */
  function AnyIndicates(env: Matchers.Env, files: seq<Files.File>, rules: seq<Config.Style>): bool {
    files != [] && (AnyIndicates(env, files[..|files| - 1], rules) || Indicates(env, files[|files| - 1], rules))
  }

  lemma {:induction false} AnyIndicatesIff(env: Matchers.Env, files: seq<Files.File>, rules: seq<Config.Style>)
    ensures AnyIndicates(env, files, rules) <==> exists j :: 0 <= j < |files| && Indicates(env, files[j], rules)
  {
    if files != [] {
      var init := files[..|files| - 1];
      AnyIndicatesIff(env, init, rules);
      if AnyIndicates(env, init, rules) {
        var j :| 0 <= j < |init| && Indicates(env, init[j], rules);
        assert files[j] == init[j];
      }
      if j :| 0 <= j < |files| && Indicates(env, files[j], rules) {
        if j < |init| {
          assert init[j] == files[j];
        }
      }
    }
  }

  /*
   * ---------------------------------------------------------------------
   * `render_info`
   * ---------------------------------------------------------------------
   */

  /**
   * The analysis as the renderer reads it: the groups (each configured
   * column with its sorted files), the variable counts, the total of the
   * changes and the size of the regular files.
   */
  datatype Summary = Summary(
    groups: seq<GroupValue>,
    variables: map<string, nat>,
    changes: Option<GitDiff.Change>,
    diskUsageFiles: nat)

  /**
   * Where `render_info` is between two tokens: the rows already pushed into
   * the column, the spans of the row being built, and the current style.
   */
  datatype InfoState = InfoState(rows: seq<Line>, current: seq<Span>, style: Option<Styles.Style>)

  /** One span in the current style added to the row being built. */
  function AddSpan(st: InfoState, text: string): InfoState {
    st.(current := st.current + [Span(text, st.style)])
  }

  /**
   * A text token: each `\n` ends the row being built, with the text before
   * it as the row's last span (even an empty one); the text after the last
   * `\n` is a span of the next row.
   */
  function TextStep(st: InfoState, text: string, charWidth: Escapes.CharWidth): (r: InfoState)
    ensures r.current != [] && r.style == st.style
    decreases |text|
  {
    match Info.Find(text, '\n')
    case None => AddSpan(st, text)
    case Some(nl) =>
      TextStep(InfoState(st.rows + [LineOf(st.current + [Span(text[..nl], st.style)], charWidth)], [], st.style),
               text[nl + 1..], charWidth)
  }

  /** `%p`: the path, with a leading value of `HOME` replaced by `~`. */
  function HomePath(path: string, home: Option<string>): string {
    if home.Some? && home.value <= path then "~" + path[|home.value|..] else path
  }

  /** What one token does to the info box being built. */
  function TokenStep(st: InfoState, t: Info.Token, base: Option<Styles.Style>, summary: Summary, inp: Inputs): InfoState {
    match t
    case Text(s) => TextStep(st, s, inp.charWidth)
    case Variable(name) => AddSpan(st, DecimalString(if name in summary.variables then summary.variables[name] else 0))
    case Style(s) => st.(style := Styles.CombineOpt(st.style, Some(s)))
    case StyleReset => st.(style := base)
    case Path => AddSpan(st, inp.pathText)
    case PathHome => AddSpan(st, HomePath(inp.pathText, inp.envVar("HOME")))
    case DiskUsage => AddSpan(st, FormatSizeOf(summary.diskUsageFiles))
    case AddedLines => if summary.changes.Some? then AddSpan(st, DecimalString(summary.changes.value.insertions)) else st
    case DeletedLines => if summary.changes.Some? then AddSpan(st, DecimalString(summary.changes.value.deletions)) else st
  }

  /** The tokens applied in order, from no row, no span and the base style. */
  function InfoRun(ts: seq<Info.Token>, base: Option<Styles.Style>, summary: Summary, inp: Inputs): InfoState {
    if ts == [] then InfoState([], [], base)
    else TokenStep(InfoRun(ts[..|ts| - 1], base, summary, inp), ts[|ts| - 1], base, summary, inp)
  }

  /** The rows of a finished info box: the rows pushed, then the last row when it has a span. */
  function InfoLines(st: InfoState, charWidth: Escapes.CharWidth): seq<Line> {
    st.rows + (if st.current == [] then [] else [LineOf(st.current, charWidth)])
  }

  /** The column `render_info` makes of an info box. */
  function InfoBlock(content: Config.InfoContent, summary: Summary, inp: Inputs): Block {
    var base := content.Get().1;
    Built(true, InfoLines(InfoRun(Info.Tokens(content.Get().0, inp.parseColor), base, summary, inp), inp.charWidth)).(style := base)
  }

  /** The column and the row being built hold what the state says. */
  predicate InfoHolds(column: Column, row: Row, st: InfoState, base: Option<Styles.Style>, charWidth: Escapes.CharWidth)
    reads column, row
  {
    column.Value() == Built(true, st.rows).(style := base) && row.Value() == LineOf(st.current, charWidth)
  }

  /** Pushing a row onto a styled column built by pushes. */
  lemma StyledSnoc(lines: seq<Line>, l: Line, base: Option<Styles.Style>)
    ensures Pushed(Built(true, lines).(style := base), l) == Built(true, lines + [l]).(style := base)
  {
    BuiltSnoc(true, lines, l);
  }

  /** `render_info`: the column of one info box. */
  method RenderInfo(content: Config.InfoContent, summary: Summary, inp: Inputs) returns (column: Column)
    ensures column.Value() == InfoBlock(content, summary, inp)
  {
    var got := content.Get();
    var text, base := got.0, got.1;
    column := new Column.New(true);
    var row := new Row();
    column.SetStyle(base);
    var tokens := Info.Parse(text, inp.parseColor);
    row := RenderTokens(tokens, column, row, base, summary, inp);
    FinishInfo(column, row, base, inp.charWidth, InfoRun(tokens, base, summary, inp));
  }

  /** The loop over the tokens of the format. */
  method RenderTokens(tokens: seq<Info.Token>, column: Column, row: Row, base: Option<Styles.Style>, summary: Summary, inp: Inputs)
    returns (row': Row)
    requires InfoHolds(column, row, InfoState([], [], base), base, inp.charWidth)
    modifies column, row
    ensures row' == row || fresh(row')
    ensures InfoHolds(column, row', InfoRun(tokens, base, summary, inp), base, inp.charWidth)
  {
    row' := row;
    var style := base;
    var i := 0;
    ghost var st := InfoState([], [], base);
    while i < |tokens|
      invariant i <= |tokens|
      invariant row' == row || fresh(row')
      invariant st == InfoRun(tokens[..i], base, summary, inp)
      invariant InfoHolds(column, row', st, base, inp.charWidth) && style == st.style
    {
      InfoRunSnoc(tokens, i, base, summary, inp);
      style, row' := RenderToken(tokens[i], column, row', style, base, summary, inp, st);
      st := TokenStep(st, tokens[i], base, summary, inp);
      i := i + 1;
    }
    assert tokens[..i] == tokens;
  }

  lemma InfoRunSnoc(tokens: seq<Info.Token>, i: nat, base: Option<Styles.Style>, summary: Summary, inp: Inputs)
    requires i < |tokens|
    ensures InfoRun(tokens[..i + 1], base, summary, inp) == TokenStep(InfoRun(tokens[..i], base, summary, inp), tokens[i], base, summary, inp)
  {
    assert tokens[..i + 1][..i] == tokens[..i];
  }

  /** `if !row.is_empty() { column.push(row) }`: the last row is kept only when it has a span. */
  method FinishInfo(column: Column, row: Row, base: Option<Styles.Style>, charWidth: Escapes.CharWidth, ghost st: InfoState)
    requires InfoHolds(column, row, st, base, charWidth)
    modifies column
    ensures column.Value() == Built(true, InfoLines(st, charWidth)).(style := base)
  {
    if !row.IsEmpty() {
      column.Push(row);
      StyledSnoc(st.rows, row.Value(), base);
    } else {
      assert InfoLines(st, charWidth) == st.rows;
    }
  }

  /** One token of the info format applied to the column, the row being built and the style. */
  method RenderToken(t: Info.Token, column: Column, row: Row, style: Option<Styles.Style>, base: Option<Styles.Style>,
                     summary: Summary, inp: Inputs, ghost st: InfoState)
    returns (style': Option<Styles.Style>, row': Row)
    requires InfoHolds(column, row, st, base, inp.charWidth) && style == st.style
    modifies column, row
    ensures row' == row || fresh(row')
    ensures InfoHolds(column, row', TokenStep(st, t, base, summary, inp), base, inp.charWidth)
    ensures style' == TokenStep(st, t, base, summary, inp).style
  {
    style', row' := style, row;
    match t {
      case Text(s) =>
        row' := PushText(s, column, row, style, base, inp.charWidth, st);
      case Variable(name) =>
        var value := if name in summary.variables then summary.variables[name] else 0;
        AddSpanTo(row, DecimalString(value), style, st, inp.charWidth);
      case Style(s) =>
        style' := Styles.CombineOpt(style, Some(s));
      case StyleReset =>
        style' := base;
      case Path =>
        AddSpanTo(row, inp.pathText, style, st, inp.charWidth);
      case PathHome =>
        var path := inp.pathText;
        var home := inp.envVar("HOME");
        if home.Some? && home.value <= path {
          path := "~" + path[|home.value|..];
        }
        AddSpanTo(row, path, style, st, inp.charWidth);
      case DiskUsage =>
        var size := FormatSize(summary.diskUsageFiles);
        AddSpanTo(row, size, style, st, inp.charWidth);
      case AddedLines =>
        if summary.changes.Some? {
          AddSpanTo(row, DecimalString(summary.changes.value.insertions), style, st, inp.charWidth);
        }
      case DeletedLines =>
        if summary.changes.Some? {
          AddSpanTo(row, DecimalString(summary.changes.value.deletions), style, st, inp.charWidth);
        }
    }
  }

  /** `row.add_text(text, style)` on the row being built. */
  method AddSpanTo(row: Row, text: string, style: Option<Styles.Style>, ghost st: InfoState, charWidth: Escapes.CharWidth)
    requires row.Value() == LineOf(st.current, charWidth) && style == st.style
    modifies row
    ensures row.Value() == LineOf(AddSpan(st, text).current, charWidth)
  {
    row.AddText(text, style, charWidth);
    assert row.spans[..|row.spans| - 1] == st.current;
  }

  /** A text token: the loop over its newlines, each pushing the row being built and starting a new one. */
  method PushText(text: string, column: Column, row: Row, style: Option<Styles.Style>, base: Option<Styles.Style>,
                  charWidth: Escapes.CharWidth, ghost st: InfoState)
    returns (row': Row)
    requires InfoHolds(column, row, st, base, charWidth) && style == st.style
    modifies column, row
    ensures row' == row || fresh(row')
    ensures InfoHolds(column, row', TextStep(st, text, charWidth), base, charWidth)
  {
    row' := row;
    var rest := text;
    ghost var s := st;
    var found := Info.Find(rest, '\n');
    while found.Some?
      invariant found == Info.Find(rest, '\n')
      invariant row' == row || fresh(row')
      invariant InfoHolds(column, row', s, base, charWidth) && s.style == style
      invariant TextStep(s, rest, charWidth) == TextStep(st, text, charWidth)
      decreases |rest|
    {
      var nl := found.value;
      ghost var next := InfoState(s.rows + [LineOf(s.current + [Span(rest[..nl], style)], charWidth)], [], style);
      TextStepNewline(s, rest, nl, charWidth);
      row' := EndRow(rest[..nl], column, row', style, base, charWidth, s);
      s := next;
      rest := rest[nl + 1..];
      found := Info.Find(rest, '\n');
    }
    TextStepLast(s, rest, charWidth);
    AddSpanTo(row', rest, style, s, charWidth);
  }

  lemma TextStepNewline(st: InfoState, text: string, nl: nat, charWidth: Escapes.CharWidth)
    requires Info.Find(text, '\n') == Some(nl)
    ensures TextStep(st, text, charWidth) ==
      TextStep(InfoState(st.rows + [LineOf(st.current + [Span(text[..nl], st.style)], charWidth)], [], st.style),
               text[nl + 1..], charWidth)
  {
  }

  lemma TextStepLast(st: InfoState, text: string, charWidth: Escapes.CharWidth)
    requires Info.Find(text, '\n').None?
    ensures TextStep(st, text, charWidth) == AddSpan(st, text)
  {
  }

  /** A `\n` in a text token: the text before it ends the row, which is pushed, and a new row starts. */
  method EndRow(piece: string, column: Column, row: Row, style: Option<Styles.Style>, base: Option<Styles.Style>,
                charWidth: Escapes.CharWidth, ghost st: InfoState)
    returns (row': Row)
    requires InfoHolds(column, row, st, base, charWidth) && style == st.style
    modifies column, row
    ensures fresh(row')
    ensures InfoHolds(column, row', InfoState(st.rows + [LineOf(st.current + [Span(piece, style)], charWidth)], [], style),
                      base, charWidth)
  {
    AddSpanTo(row, piece, style, st, charWidth);
    column.Push(row);
    StyledSnoc(st.rows, row.Value(), base);
    row' := new Row();
  }

  // Properties of the info boxes.

  /** How many times `c` occurs in `s`. */
  function Occurrences(s: string, c: char): nat {
    if s == [] then 0 else (if s[0] == c then 1 else 0) + Occurrences(s[1..], c)
  }

  lemma {:induction false} OccurrencesConcat(a: string, b: string, c: char)
    ensures Occurrences(a + b, c) == Occurrences(a, c) + Occurrences(b, c)
  {
    if a != [] {
      assert (a + b)[1..] == a[1..] + b;
      OccurrencesConcat(a[1..], b, c);
    } else {
      assert a + b == b;
    }
  }

  lemma {:induction false} OccurrencesAbsent(s: string, c: char)
    requires c !in s
    ensures Occurrences(s, c) == 0
  {
    if s != [] {
      assert c !in s[1..];
      OccurrencesAbsent(s[1..], c);
    }
  }

  /** Cutting a text at the first `c` leaves one occurrence fewer after it. */
  lemma OccurrencesAfterFirst(text: string, k: nat, c: char)
    requires k < |text| && text[k] == c && c !in text[..k]
    ensures Occurrences(text, c) == Occurrences(text[k + 1..], c) + 1
  {
    assert text == text[..k] + [text[k]] + text[k + 1..];
    OccurrencesConcat(text[..k] + [text[k]], text[k + 1..], c);
    OccurrencesConcat(text[..k], [text[k]], c);
    OccurrencesAbsent(text[..k], c);
    assert Occurrences([text[k]], c) == 1;
  }

  /** Each `\n` of a text token closes one row, and the rows before stay as they were. */
  lemma {:induction false} TextStepRows(st: InfoState, text: string, charWidth: Escapes.CharWidth)
    ensures |TextStep(st, text, charWidth).rows| == |st.rows| + Occurrences(text, '\n')
    ensures TextStep(st, text, charWidth).rows[..|st.rows|] == st.rows
    decreases |text|
  {
    match Info.Find(text, '\n')
    case None =>
      OccurrencesAbsent(text, '\n');
    case Some(nl) =>
      var next := InfoState(st.rows + [LineOf(st.current + [Span(text[..nl], st.style)], charWidth)], [], st.style);
      TextStepRows(next, text[nl + 1..], charWidth);
      OccurrencesAfterFirst(text, nl, '\n');
      var r := TextStep(next, text[nl + 1..], charWidth);
      assert r.rows[..|st.rows|] == r.rows[..|next.rows|][..|st.rows|];
  }

  /**
   * An info format with no `%` is one text: it makes one row more than it
   * has newlines, the last row holding the text after the last newline
   * (an empty span when the format ends with one).
   */
  lemma PlainInfoRows(text: string, color: Option<Config.Color>, summary: Summary, inp: Inputs)
    requires text != [] && '%' !in text
    ensures InfoBlock(Config.InfoContent.Attrs(text, color), summary, inp).height == Occurrences(text, '\n') + 1
  {
    var base := Config.InfoContent.Attrs(text, color).Get().1;
    Info.PlainText(text, inp.parseColor);
    var tokens := [Info.Text(text)];
    assert tokens[..0] == [];
    assert InfoRun(tokens, base, summary, inp) == TextStep(InfoState([], [], base), text, inp.charWidth);
    TextStepRows(InfoState([], [], base), text, inp.charWidth);
  }

  /**
   * A variable that was not counted is shown as `0`; `%C{reset}` goes back
   * to the base style; `%+` and `%-` show nothing without a diff.
   */
  lemma TokenEffects(st: InfoState, name: string, base: Option<Styles.Style>, summary: Summary, inp: Inputs)
    ensures name !in summary.variables ==>
      TokenStep(st, Info.Variable(name), base, summary, inp).current == st.current + [Span("0", st.style)]
    ensures TokenStep(st, Info.StyleReset, base, summary, inp).style == base
    ensures summary.changes.None? ==>
      TokenStep(st, Info.AddedLines, base, summary, inp) == st && TokenStep(st, Info.DeletedLines, base, summary, inp) == st
  {
    assert DecimalString(0) == [DigitChar(0)];
  }

  /*
   * ---------------------------------------------------------------------
   * `render_groups`
   * ---------------------------------------------------------------------
   */

  /** Some group's column has a label. */
  predicate HasLabels(groups: seq<GroupValue>) {
    exists i :: 0 <= i < |groups| && groups[i].column.labelText.Some?
  }

  /** `groups.iter().any(|g| g.column.label.is_some())`. */
  method AnyLabel(groups: seq<GroupValue>) returns (any: bool)
    ensures any <==> HasLabels(groups)
  {
    var i := 0;
    while i < |groups|
      invariant i <= |groups|
      invariant !HasLabels(groups[..i])
    {
      if groups[i].column.labelText.Some? {
        return true;
      }
      assert forall j :: 0 <= j < i ==> groups[..i + 1][j] == groups[..i][j];
      i := i + 1;
    }
    assert groups[..i] == groups;
    return false;
  }

  /** The padding column between two groups: the configured width, or `DEFAULT_PADDING`. */
  function GroupPadding(config: Config.Root): Block {
    Block(Left, config.grid.columnPadding.GetOr(DEFAULT_PADDING), 0, false, None, [])
  }

  /** What one group adds to the screen: nothing when it has no file, else its columns. */
  function GroupPart(g: GroupValue, config: Config.Root, hasLabels: bool, inp: Inputs): (part: seq<Block>)
    ensures part == [] <==> g.files == []
  {
    if g.files == [] then [] else GroupColumns(g, config, hasLabels, inp)
  }

  /** The part of each group, in order. */
  function GroupParts(groups: seq<GroupValue>, config: Config.Root, hasLabels: bool, inp: Inputs): (parts: seq<seq<Block>>)
    ensures |parts| == |groups|
  {
    if groups == [] then []
    else GroupParts(groups[..|groups| - 1], config, hasLabels, inp) + [GroupPart(groups[|groups| - 1], config, hasLabels, inp)]
  }

  /**
   * The loop of `render_groups` over the parts: an empty part is skipped,
   * and a padding column goes before a part when columns are already there.
   */
  function Appended(parts: seq<seq<Block>>, pad: Block): seq<Block> {
    if parts == [] then []
    else
      var prev := Appended(parts[..|parts| - 1], pad);
      var part := parts[|parts| - 1];
      if part == [] then prev else prev + (if prev == [] then [] else [pad]) + part
  }

  /** The columns of the groups, as `render_groups` appends them. */
  function GroupsColumns(groups: seq<GroupValue>, config: Config.Root, hasLabels: bool, inp: Inputs): seq<Block> {
    Appended(GroupParts(groups, config, hasLabels, inp), GroupPadding(config))
  }

  /** The non-empty parts, in order. */
  function NonEmptyParts(parts: seq<seq<Block>>): (r: seq<seq<Block>>)
    ensures forall i :: 0 <= i < |r| ==> r[i] != []
  {
    if parts == [] then []
    else (if parts[0] == [] then [] else [parts[0]]) + NonEmptyParts(parts[1..])
  }

  /** The lists one after the other, with `sep` between each two. */
  function Join(xs: seq<seq<Block>>, sep: Block): seq<Block> {
    if xs == [] then [] else if |xs| == 1 then xs[0] else xs[0] + [sep] + Join(xs[1..], sep)
  }

  lemma {:induction false} JoinSnoc(xs: seq<seq<Block>>, x: seq<Block>, sep: Block)
    ensures Join(xs + [x], sep) == Join(xs, sep) + (if xs == [] then [] else [sep]) + x
  {
    if xs == [] {
      assert xs + [x] == [x];
    } else if |xs| == 1 {
      assert (xs + [x])[1..] == [x];
    } else {
      assert (xs + [x])[1..] == xs[1..] + [x];
      JoinSnoc(xs[1..], x, sep);
    }
  }

  lemma {:induction false} NonEmptySnoc(parts: seq<seq<Block>>, part: seq<Block>)
    ensures NonEmptyParts(parts + [part]) == NonEmptyParts(parts) + (if part == [] then [] else [part])
  {
    if parts == [] {
      assert parts + [part] == [part];
    } else {
      assert (parts + [part])[1..] == parts[1..] + [part];
      NonEmptySnoc(parts[1..], part);
    }
  }

  /**
   * A padding column stands between each two successive non-empty parts,
   * and nowhere else: empty parts add nothing, not even padding.
   */
  lemma {:induction false} AppendedJoined(parts: seq<seq<Block>>, pad: Block)
    ensures Appended(parts, pad) == Join(NonEmptyParts(parts), pad)
  {
    if parts != [] {
      var init := parts[..|parts| - 1];
      var part := parts[|parts| - 1];
      AppendedJoined(init, pad);
      assert parts == init + [part];
      NonEmptySnoc(init, part);
      var xs := NonEmptyParts(init);
      if part != [] {
        JoinSnoc(xs, part, pad);
        assert xs != [] ==> Join(xs, pad) != [];
      } else {
        assert xs + [] == xs;
      }
    }
  }

  /** The columns of the groups are the columns of the non-empty ones, with the padding column between each two. */
  lemma GroupsColumnsJoined(groups: seq<GroupValue>, config: Config.Root, hasLabels: bool, inp: Inputs)
    ensures GroupsColumns(groups, config, hasLabels, inp) ==
      Join(NonEmptyParts(GroupParts(groups, config, hasLabels, inp)), GroupPadding(config))
  {
    AppendedJoined(GroupParts(groups, config, hasLabels, inp), GroupPadding(config));
  }

  /** Only empty parts, no column. */
  lemma {:induction false} AppendedEmpty(parts: seq<seq<Block>>, pad: Block)
    ensures Appended(parts, pad) == [] <==> forall i :: 0 <= i < |parts| ==> parts[i] == []
  {
    if parts != [] {
      var init := parts[..|parts| - 1];
      AppendedEmpty(init, pad);
      if forall i :: 0 <= i < |parts| ==> parts[i] == [] {
        assert forall i :: 0 <= i < |init| ==> init[i] == parts[i];
      }
    }
  }

  lemma {:induction false} GroupPartsAt(groups: seq<GroupValue>, config: Config.Root, hasLabels: bool, inp: Inputs)
    ensures forall i :: 0 <= i < |groups| ==>
      GroupParts(groups, config, hasLabels, inp)[i] == GroupPart(groups[i], config, hasLabels, inp)
  {
    if groups != [] {
      var init := groups[..|groups| - 1];
      var parts := GroupParts(groups, config, hasLabels, inp);
      var initParts := GroupParts(init, config, hasLabels, inp);
      GroupPartsAt(init, config, hasLabels, inp);
      assert parts == initParts + [GroupPart(groups[|groups| - 1], config, hasLabels, inp)];
      forall i | 0 <= i < |groups|
        ensures parts[i] == GroupPart(groups[i], config, hasLabels, inp)
      {
        if i < |init| {
          assert parts[i] == initParts[i] && init[i] == groups[i];
        } else {
          assert i == |groups| - 1;
        }
      }
    }
  }

  /** The groups give no column at all exactly when none of them has a file. */
  lemma NoColumns(groups: seq<GroupValue>, config: Config.Root, hasLabels: bool, inp: Inputs)
    ensures GroupsColumns(groups, config, hasLabels, inp) == [] <==> forall i :: 0 <= i < |groups| ==> groups[i].files == []
  {
    var parts := GroupParts(groups, config, hasLabels, inp);
    AppendedEmpty(parts, GroupPadding(config));
    GroupPartsAt(groups, config, hasLabels, inp);
    assert forall i :: 0 <= i < |groups| ==> (parts[i] == [] <==> groups[i].files == []);
  }

  /** The boxes of the info section. */
  datatype InfoBox = LeftBox | RightBox | ColumnBox

  function InfoContentOf(config: Config.Root, box: InfoBox): Option<Config.InfoContent> {
    if config.info.None? then None
    else
      match box
      case LeftBox => config.info.value.left
      case RightBox => config.info.value.right
      case ColumnBox => config.info.value.column
  }

  /** `info!`: the column of an info box, when it is configured. */
  function InfoBoxOf(summary: Summary, config: Config.Root, inp: Inputs, box: InfoBox): Option<Block> {
    match InfoContentOf(config, box)
    case None => None
    case Some(content) => Some(InfoBlock(content, summary, inp))
  }

  /** The screen `render_groups` makes of an analysis. */
  function ScreenOf(summary: Summary, config: Config.Root, inp: Inputs): Screen {
    Screen(
      GroupsColumns(summary.groups, config, HasLabels(summary.groups), inp),
      InfoBoxOf(summary, config, inp, LeftBox),
      InfoBoxOf(summary, config, inp, RightBox),
      InfoBoxOf(summary, config, inp, ColumnBox))
  }

  /** `render_groups`. */
  method RenderGroups(summary: Summary, config: Config.Root, inp: Inputs) returns (screen: Screen)
    ensures screen == ScreenOf(summary, config, inp)
  {
    var groups := summary.groups;
    var padding := config.grid.columnPadding.GetOr(DEFAULT_PADDING);
    var hasLabels := AnyLabel(groups);
    var columns: seq<Block> := [];
    var i := 0;
    while i < |groups|
      invariant i <= |groups|
      invariant columns == GroupsColumns(groups[..i], config, hasLabels, inp)
    {
      columns := AppendGroup(groups, i, columns, padding, config, hasLabels, inp);
      i := i + 1;
    }
    assert groups[..i] == groups;
    var left := RenderInfoBox(summary, config, inp, LeftBox);
    var right := RenderInfoBox(summary, config, inp, RightBox);
    var column := RenderInfoBox(summary, config, inp, ColumnBox);
    screen := Screen(columns, left, right, column);
  }

  /** One iteration of the loop of `render_groups`. */
  method AppendGroup(groups: seq<GroupValue>, i: nat, columns: seq<Block>, padding: nat, config: Config.Root, hasLabels: bool, inp: Inputs)
    returns (columns': seq<Block>)
    requires i < |groups| && padding == GroupPadding(config).width
    requires columns == GroupsColumns(groups[..i], config, hasLabels, inp)
    ensures columns' == GroupsColumns(groups[..i + 1], config, hasLabels, inp)
  {
    columns' := columns;
    var g := groups[i];
    var parts := GroupParts(groups[..i + 1], config, hasLabels, inp);
    assert groups[..i + 1][..i] == groups[..i];
    assert parts[..i] == GroupParts(groups[..i], config, hasLabels, inp) && parts[i] == GroupPart(g, config, hasLabels, inp);
    if g.files != [] {
      if columns' != [] {
        var pad := new Column.Padding(padding, 0, None);
        columns' := columns' + [pad.Value()];
      }
      var part := RenderGroup(g, config, hasLabels, inp);
      columns' := columns' + part;
    }
  }

  method RenderInfoBox(summary: Summary, config: Config.Root, inp: Inputs, box: InfoBox) returns (b: Option<Block>)
    ensures b == InfoBoxOf(summary, config, inp, box)
  {
    var content := InfoContentOf(config, box);
    if content.None? {
      return None;
    }
    var column := RenderInfo(content.value, summary, inp);
    return Some(column.Value());
  }
}
