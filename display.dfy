/**
 * `print`: the screen the renderer built, written out as lines of text.
 *
 * The header (the left and right info boxes), then the main columns with
 * the info column placed after them when it fits. Columns that do not fit
 * the terminal width are dropped, and a note says how many of them held
 * files. Each printed line is one row of every kept column: its spans
 * between the column's padding, with style escapes only when colours are on.
 *
 * The terminal (its width, whether standard output is a terminal, and the
 * escape codes of a style) is a parameter; the output is the sequence of
 * lines written, each followed by a line break.
 */
module Display {
  import opened Common
  import Styles
  import Escapes
  import Config
  import opened Grid

  /** Terminal width when it cannot be read. */
  const DEFAULT_WIDTH: nat := 80

  /** What printing learns from outside the program. */
  datatype Terminal = Terminal(
    width: Option<Config.NonZero>,
    isTty: bool,
    prefix: Styles.Style -> string,
    suffix: Styles.Style -> string)

  function WidthOr(width: Option<Config.NonZero>): (w: nat)
    ensures width.Some? ==> w == width.value
    ensures width.None? ==> w == DEFAULT_WIDTH
  {
    if width.Some? then width.value else DEFAULT_WIDTH
  }

  /** `usize::checked_sub`. */
  function CheckedSub(a: nat, b: nat): (r: Option<nat>)
    ensures r.Some? <==> b <= a
    ensures r.Some? ==> r.value + b == a
  {
    if b <= a then Some(a - b) else None
  }

  /** `usize::saturating_sub`. */
  function SaturatingSub(a: nat, b: nat): (r: nat)
    ensures b <= a ==> r + b == a
    ensures a < b ==> r == 0
  {
    if b <= a then a - b else 0
  }

  /** The value of `Column::padding(width, height, style)`. */
  function PaddingColumn(width: nat, height: nat, style: Option<Styles.Style>): Block {
    Block(Left, width, height, false, style, [])
  }

  /** The sum of the widths of the columns. */
  function SumWidths(cs: seq<Block>): nat {
    if cs == [] then 0 else cs[0].width + SumWidths(cs[1..])
  }

  lemma {:induction false} SumWidthsConcat(a: seq<Block>, b: seq<Block>)
    ensures SumWidths(a + b) == SumWidths(a) + SumWidths(b)
  {
    if a == [] {
      assert a + b == b;
    } else {
      assert (a + b)[1..] == a[1..] + b;
      SumWidthsConcat(a[1..], b);
    }
  }

  lemma SumWidthsShort(a: Block, b: Block, c: Block)
    ensures SumWidths([a]) == a.width
    ensures SumWidths([a, b]) == a.width + b.width
    ensures SumWidths([a, b, c]) == a.width + b.width + c.width
  {
    assert [a][1..] == [] && [b][1..] == [] && [c][1..] == [];
    assert SumWidths([a]) == a.width + SumWidths([]);
    assert SumWidths([b]) == b.width + SumWidths([]);
    assert SumWidths([c]) == c.width + SumWidths([]);
    assert [a, b][1..] == [b] && [b, c][1..] == [c];
    assert SumWidths([a, b]) == a.width + SumWidths([b]);
    assert SumWidths([b, c]) == b.width + SumWidths([c]);
    assert [a, b, c][1..] == [b, c];
    assert SumWidths([a, b, c]) == a.width + SumWidths([b, c]);
  }

  /** The columns that are there, in order (`flat_map(Option::take)`). */
  function Somes(xs: seq<Option<Block>>): (r: seq<Block>)
    ensures |r| <= |xs|
  {
    if xs == [] then []
    else if xs[0].Some? then [xs[0].value] + Somes(xs[1..])
    else Somes(xs[1..])
  }

  /**
   * `compute_header`: the left box, the padding that pushes the right box to
   * the right edge, and the right box. The padding is left out when it would
   * be negative or when there is no right box.
   */
  function ComputeHeader(terminalWidth: Option<Config.NonZero>, left: Option<Block>, right: Option<Block>): (r: Option<seq<Block>>)
    ensures r.None? <==> left.None? && right.None?
  {
    if left.None? && right.None? then None
    else
      var width := WidthOr(terminalWidth);
      var padding :=
        if left.Some? && right.Some? then CheckedSub(width, left.value.width + right.value.width)
        else if right.Some? then CheckedSub(width, right.value.width)
        else None;
      var paddingColumn := if padding.Some? then Some(PaddingColumn(padding.value, 0, None)) else None;
      Some(Somes([left, paddingColumn, right]))
  }

  /**
   * With a right box, the header fills the terminal width exactly when the
   * boxes fit in it, and is the boxes alone when they do not; a left box
   * alone gets no padding.
   */
  lemma HeaderLayout(terminalWidth: Option<Config.NonZero>, left: Option<Block>, right: Option<Block>)
    ensures left.Some? && right.None? ==> ComputeHeader(terminalWidth, left, right) == Some([left.value])
    ensures right.Some? ==>
      var boxes := Somes([left, right]);
      var width := WidthOr(terminalWidth);
      var header := ComputeHeader(terminalWidth, left, right).value;
      && (SumWidths(boxes) <= width ==>
            && |header| == |boxes| + 1
            && |header| >= 2
            && SumWidths(header) == width
            && header[|header| - 2] == PaddingColumn(width - SumWidths(boxes), 0, None)
            && header[|header| - 1] == right.value)
      && (width < SumWidths(boxes) ==> header == boxes)
  {
    var xs: seq<Option<Block>> := [left, None, right];
    if right.Some? {
      var width := WidthOr(terminalWidth);
      if left.Some? {
        HeaderBoth(left.value, right.value, width);
      } else {
        HeaderRightAlone(right.value, width);
      }
    } else if left.Some? {
      assert xs[1..] == [None, right];
      assert xs[1..][1..] == [right];
      assert xs[1..][1..][1..] == [];
      assert Somes(xs[1..][1..]) == Somes([]);
      assert Somes(xs[1..]) == [];
      assert Somes(xs) == [left.value];
    }
  }

  lemma HeaderBoth(l: Block, r: Block, width: nat)
    ensures Somes([Some(l), Some(r)]) == [l, r]
    ensures SumWidths([l, r]) == l.width + r.width
    ensures l.width + r.width <= width ==>
      var p := PaddingColumn(width - l.width - r.width, 0, None);
      Somes([Some(l), Some(p), Some(r)]) == [l, p, r] && SumWidths([l, p, r]) == width
    ensures Somes([Some(l), None, Some(r)]) == [l, r]
  {
    var p := PaddingColumn(SaturatingSub(width, l.width + r.width), 0, None);
    SomesShort(Some(l), Some(r));
    SomesShort(Some(l), Some(p), Some(r));
    SomesShort(Some(l), None, Some(r));
    SumWidthsShort(l, r, r);
    SumWidthsShort(l, p, r);
  }

  lemma HeaderRightAlone(r: Block, width: nat)
    ensures Somes([None, Some(r)]) == [r]
    ensures SumWidths([r]) == r.width
    ensures r.width <= width ==>
      var p := PaddingColumn(width - r.width, 0, None);
      Somes([None, Some(p), Some(r)]) == [p, r] && SumWidths([p, r]) == width
    ensures Somes([None, None, Some(r)]) == [r]
  {
    var p := PaddingColumn(SaturatingSub(width, r.width), 0, None);
    SomesShort(None, Some(r));
    SomesShort(None, Some(p), Some(r));
    SomesShort(None, None, Some(r));
    SumWidthsShort(p, r, r);
  }

  lemma SomesShort(a: Option<Block>, b: Option<Block>, c: Option<Block> := None)
    ensures Somes([b]) == (if b.Some? then [b.value] else [])
    ensures Somes([a, b]) == (if a.Some? then [a.value] else []) + Somes([b])
    ensures Somes([a, b, c]) == (if a.Some? then [a.value] else []) + Somes([b, c])
    ensures Somes([b, c]) == (if b.Some? then [b.value] else []) + Somes([c])
    ensures Somes([c]) == (if c.Some? then [c.value] else [])
  {
    assert [b][1..] == [] && [c][1..] == [];
    assert [a, b][1..] == [b] && [b, c][1..] == [c];
    assert [a, b, c][1..] == [b, c];
  }

  /**
   * The main columns `print` writes: the info column goes last, after a
   * padding column that pushes it to the right edge, if it fits.
   */
  function WithInfoColumn(columns: seq<Block>, info: Option<Block>, terminalWidth: Option<Config.NonZero>): seq<Block> {
    if info.None? then columns
    else
      var width := WidthOr(terminalWidth);
      var padding := CheckedSub(width, SumWidths(columns) + info.value.width);
      if padding.Some? then columns + [PaddingColumn(padding.value, 0, None), info.value]
      else columns
  }

  /** The info column is placed exactly when it fits, and then the columns fill the width. */
  lemma InfoColumnPlacement(columns: seq<Block>, info: Option<Block>, terminalWidth: Option<Config.NonZero>)
    ensures var width := WidthOr(terminalWidth);
      var r := WithInfoColumn(columns, info, terminalWidth);
      && (info.Some? && SumWidths(columns) + info.value.width <= width ==>
            && r[..|columns|] == columns
            && |r| == |columns| + 2
            && r[|columns|] == PaddingColumn(width - SumWidths(columns) - info.value.width, 0, None)
            && r[|columns| + 1] == info.value
            && SumWidths(r) == width)
      && (info.None? || width < SumWidths(columns) + info.value.width ==> r == columns)
  {
    var width := WidthOr(terminalWidth);
    if info.Some? && SumWidths(columns) + info.value.width <= width {
      var p := PaddingColumn(width - SumWidths(columns) - info.value.width, 0, None);
      var tail := [p, info.value];
      SumWidthsConcat(columns, tail);
      SumWidthsShort(p, info.value, p);
    }
  }

  /**
   * How many columns fit, from the front, when `acc` columns of width are
   * already used: the running sum stops at the first column that overflows.
   */
  function KeptFrom(cs: seq<Block>, acc: nat, max: nat): (k: nat)
    ensures k <= |cs|
  {
    if cs == [] then 0
    else if acc + cs[0].width <= max then 1 + KeptFrom(cs[1..], acc + cs[0].width, max)
    else 0
  }

  /** The number of columns printed: all of them when the width is unknown. */
  function Kept(columns: seq<Block>, terminalWidth: Option<Config.NonZero>): (k: nat)
    ensures k <= |columns|
  {
    if terminalWidth.None? then |columns| else KeptFrom(columns, 0, terminalWidth.value)
  }

  lemma {:induction false} KeptFromBounds(cs: seq<Block>, acc: nat, max: nat)
    ensures var k := KeptFrom(cs, acc, max);
      && k <= |cs|
      && (0 < k ==> acc + SumWidths(cs[..k]) <= max)
      && (k < |cs| ==> max < acc + SumWidths(cs[..k + 1]))
  {
    if cs != [] {
      var k := KeptFrom(cs, acc, max);
      if acc + cs[0].width <= max {
        var tail := cs[1..];
        var acc' := acc + cs[0].width;
        KeptFromBounds(tail, acc', max);
        assert cs[..k][1..] == tail[..k - 1];
        if k < |cs| {
          assert cs[..k + 1][1..] == tail[..k];
        }
      } else {
        assert cs[..1][1..] == [];
      }
    }
  }

  /**
   * The kept columns are the longest prefix whose width sum is within the
   * terminal width; every column is kept when the width is unknown.
   */
  lemma KeptLongest(columns: seq<Block>, terminalWidth: Option<Config.NonZero>)
    ensures Kept(columns, terminalWidth) <= |columns|
    ensures terminalWidth.None? ==> Kept(columns, terminalWidth) == |columns|
    ensures terminalWidth.Some? ==>
      var k := Kept(columns, terminalWidth);
      && SumWidths(columns[..k]) <= terminalWidth.value
      && (k < |columns| ==> terminalWidth.value < SumWidths(columns[..k + 1]))
  {
    if terminalWidth.Some? {
      KeptFromBounds(columns, 0, terminalWidth.value);
    }
  }

  /** The scan over the columns that `print_columns` runs to find how many fit. */
  method KeptCount(columns: seq<Block>, terminalWidth: Option<Config.NonZero>) returns (k: nat)
    ensures k == Kept(columns, terminalWidth)
  {
    if terminalWidth.None? {
      return |columns|;
    }
    var max := terminalWidth.value;
    var width: nat := 0;
    k := 0;
    while k < |columns| && width + columns[k].width <= max
      invariant k <= |columns|
      invariant k + KeptFrom(columns[k..], width, max) == KeptFrom(columns, 0, max)
    {
      assert columns[k..][1..] == columns[k + 1..];
      width := width + columns[k].width;
      k := k + 1;
    }
  }

  /** The most rows of any column with files, or 0 when there is none. */
  function MaxFileRows(cs: seq<Block>): nat {
    if cs == [] then 0
    else
      var m := MaxFileRows(cs[..|cs| - 1]);
      var c := cs[|cs| - 1];
      if c.hasFiles && |c.rows| > m then |c.rows| else m
  }

  /** The number of printed rows is the row count of the tallest column with files. */
  lemma {:induction false} MaxFileRowsBounds(cs: seq<Block>)
    ensures forall i :: 0 <= i < |cs| && cs[i].hasFiles ==> |cs[i].rows| <= MaxFileRows(cs)
    ensures MaxFileRows(cs) == 0 || exists i :: 0 <= i < |cs| && cs[i].hasFiles && |cs[i].rows| == MaxFileRows(cs)
  {
    if cs != [] {
      var init := cs[..|cs| - 1];
      MaxFileRowsBounds(init);
      var last := |cs| - 1;
      if cs[last].hasFiles && |cs[last].rows| > MaxFileRows(init) {
      } else if MaxFileRows(init) != 0 {
        var j :| 0 <= j < |init| && init[j].hasFiles && |init[j].rows| == MaxFileRows(init);
        assert cs[j] == init[j];
      }
      forall i | 0 <= i < |init| && cs[i].hasFiles
        ensures |cs[i].rows| <= MaxFileRows(cs)
      {
        assert cs[i] == init[i];
      }
    }
  }

  /** The number of columns with files. */
  function CountFiles(cs: seq<Block>): nat {
    if cs == [] then 0 else (if cs[0].hasFiles then 1 else 0) + CountFiles(cs[1..])
  }

  lemma {:induction false} CountFilesZero(cs: seq<Block>)
    ensures CountFiles(cs) == 0 <==> forall i :: 0 <= i < |cs| ==> !cs[i].hasFiles
    ensures CountFiles(cs) <= |cs|
  {
    if cs != [] {
      CountFilesZero(cs[1..]);
      assert forall i :: 1 <= i < |cs| ==> cs[i] == cs[1..][i - 1];
    }
  }

  /** Whether escapes are written: `never` is off, `always` is on, `auto` or nothing follows the terminal. */
  function UseColors(config: Config.Root, isTty: bool): (on: bool)
    ensures config.colors.None? || config.colors.value.when.None? ==> on == isTty
    ensures config.colors.Some? && config.colors.value.when.Some? ==>
      match config.colors.value.when.value
      case Auto => on == isTty
      case Never => !on
      case Always => on
  {
    if config.colors.None? || config.colors.value.when.None? then isTty
    else
      match config.colors.value.when.value
      case Auto => isTty
      case Never => false
      case Always => true
  }

  /** `n` spaces (`"{:1$}"` applied to one space). */
  function Spaces(n: nat): (s: string)
    ensures |s| == n
    ensures forall i :: 0 <= i < n ==> s[i] == ' '
  {
    if n == 0 then "" else " " + Spaces(n - 1)
  }

  lemma {:induction false} SpacesWidth(n: nat, charWidth: Escapes.CharWidth)
    requires charWidth(' ') == Some(1)
    ensures StrWidth(Spaces(n), charWidth) == n
  {
    if n > 0 {
      assert Spaces(n)[1..] == Spaces(n - 1);
      SpacesWidth(n - 1, charWidth);
    }
  }

  /** Text between the escapes of its style, when colours are on and it has one. */
  function Styled(text: string, style: Option<Styles.Style>, on: bool, term: Terminal): string {
    if on && style.Some? then term.prefix(style.value) + text + term.suffix(style.value) else text
  }

  /** The `padding!` of `print_columns`: nothing for 0, else spaces in the column's style while the column's height lasts. */
  function Pad(n: nat, column: Block, numRow: nat, on: bool, term: Terminal): string {
    if n == 0 then "" else Styled(Spaces(n), column.style, on && column.height > numRow, term)
  }

  /** The spans of a row, each in the column's style combined with its own. */
  function SpansText(spans: seq<Span>, column: Block, on: bool, term: Terminal): string {
    if spans == [] then ""
    else
      var span := spans[|spans| - 1];
      SpansText(spans[..|spans| - 1], column, on, term)
        + Styled(span.text, Styles.CombineOpt(column.style, span.style), on, term)
  }

  /** The text of the spans of a row, with no escape. */
  function Texts(spans: seq<Span>): string {
    if spans == [] then "" else Texts(spans[..|spans| - 1]) + spans[|spans| - 1].text
  }

  /** What one column writes on printed row `numRow`. */
  function Cell(column: Block, numRow: nat, on: bool, term: Terminal): string {
    if numRow >= |column.rows| then Pad(column.width, column, numRow, on, term)
    else
      var row := column.rows[numRow];
      var gap := SaturatingSub(column.width, row.width);
      (if column.align == Right then Pad(gap, column, numRow, on, term) else "")
        + SpansText(row.spans, column, on, term)
        + (if column.align == Left then Pad(gap, column, numRow, on, term) else "")
  }

  /** One printed line: the cells of all the columns, left to right. */
  function RowText(cs: seq<Block>, numRow: nat, on: bool, term: Terminal): string {
    if cs == [] then "" else Cell(cs[0], numRow, on, term) + RowText(cs[1..], numRow, on, term)
  }

  /** The first `n` printed lines. */
  function RowsText(cs: seq<Block>, n: nat, on: bool, term: Terminal): (r: seq<string>)
    ensures |r| == n
  {
    if n == 0 then [] else RowsText(cs, n - 1, on, term) + [RowText(cs, n - 1, on, term)]
  }

  lemma {:induction false} RowsTextAt(cs: seq<Block>, n: nat, on: bool, term: Terminal)
    ensures forall i :: 0 <= i < n ==> RowsText(cs, n, on, term)[i] == RowText(cs, i, on, term)
  {
    if n > 0 {
      RowsTextAt(cs, n - 1, on, term);
      var r := RowsText(cs, n, on, term);
      forall i | 0 <= i < n
        ensures r[i] == RowText(cs, i, on, term)
      {
        if i < n - 1 {
          assert r[i] == RowsText(cs, n - 1, on, term)[i];
        }
      }
    }
  }

  /** The note written when columns with files were dropped: an empty line, then the count. */
  function MoreNote(n: nat): seq<string> {
    if n == 0 then []
    else ["", "[" + DecimalString(n) + " more column" + (if n == 1 then "" else "s") + "]"]
  }

  /** The note appears exactly for a positive count, and uses the singular exactly for one column. */
  lemma MoreNoteShape(n: nat)
    ensures MoreNote(n) == [] <==> n == 0
    ensures MoreNote(1) == ["", "[1 more column]"]
    ensures n > 1 ==>
      var line := MoreNote(n)[1];
      line[|line| - 2..] == "s]" && line[..|DecimalString(n)| + 1] == "[" + DecimalString(n)
  {
    assert DecimalString(1) == "1";
    assert "[" + "1" + " more column" + "" + "]" == "[1 more column]";
  }

  /** The lines `print_columns` writes for `columns`. */
  function Printed(columns: seq<Block>, terminalWidth: Option<Config.NonZero>, on: bool, term: Terminal): seq<string> {
    var kept := columns[..Kept(columns, terminalWidth)];
    RowsText(kept, MaxFileRows(kept), on, term) + MoreNote(CountFiles(columns[|kept|..]))
  }

  /** The lines `print` writes for a screen. */
  function Output(screen: Screen, config: Config.Root, term: Terminal): seq<string> {
    var on := UseColors(config, term.isTty);
    var header := ComputeHeader(term.width, screen.infoLeft, screen.infoRight);
    (if header.Some? then Printed(header.value, term.width, on, term) else [])
      + Printed(WithInfoColumn(screen.columns, screen.infoColumn, term.width), term.width, on, term)
  }

  /** `print`. */
  method Print(screen: Screen, config: Config.Root, term: Terminal) returns (lines: seq<string>)
    ensures lines == Output(screen, config, term)
  {
    var width := term.width;
    lines := [];
    var header := ComputeHeader(width, screen.infoLeft, screen.infoRight);
    if header.Some? {
      lines := PrintColumns(width, header.value, config, term);
    }

    var columns := PlaceInfoColumn(screen.columns, screen.infoColumn, width);
    var main := PrintColumns(width, columns, config, term);
    lines := lines + main;
  }

  /** The main columns of `print`, with the info column pushed after them when it fits. */
  method PlaceInfoColumn(screenColumns: seq<Block>, infoColumn: Option<Block>, width: Option<Config.NonZero>)
    returns (columns: seq<Block>)
    ensures columns == WithInfoColumn(screenColumns, infoColumn, width)
  {
    columns := screenColumns;
    if infoColumn.Some? {
      var info := infoColumn.value;
      var padding := CheckedSub(WidthOr(width), SumWidths(columns) + info.width);
      if padding.Some? {
        columns := columns + [PaddingColumn(padding.value, 0, None), info];
      }
    }
  }

  /** `print_columns`: one line per row of the kept columns, then the note about the dropped ones. */
  method PrintColumns(terminalWidth: Option<Config.NonZero>, columns: seq<Block>, config: Config.Root, term: Terminal)
    returns (lines: seq<string>)
    ensures lines == Printed(columns, terminalWidth, UseColors(config, term.isTty), term)
  {
    var maxColumns := KeptCount(columns, terminalWidth);
    KeptLongest(columns, terminalWidth);
    var kept := columns[..maxColumns];
    var numRows := MaxFileRows(kept);
    var on := UseColors(config, term.isTty);

    lines := [];
    var numRow := 0;
    while numRow < numRows
      invariant numRow <= numRows
      invariant lines == RowsText(kept, numRow, on, term)
    {
      var line := WriteRow(kept, numRow, on, term);
      lines := lines + [line];
      numRow := numRow + 1;
    }

    lines := lines + MoreNote(CountFiles(columns[maxColumns..]));
  }

  /** One printed line, column by column. */
  method WriteRow(cs: seq<Block>, numRow: nat, on: bool, term: Terminal) returns (line: string)
    ensures line == RowText(cs, numRow, on, term)
  {
    line := "";
    var i := 0;
    while i < |cs|
      invariant i <= |cs|
      invariant line + RowText(cs[i..], numRow, on, term) == RowText(cs, numRow, on, term)
    {
      var cell := WriteCell(cs[i], numRow, on, term);
      RowTextStep(cs, i, numRow, on, term, line);
      line := line + cell;
      i := i + 1;
    }
  }

  lemma RowTextStep(cs: seq<Block>, i: nat, numRow: nat, on: bool, term: Terminal, line: string)
    requires i < |cs|
    ensures line + RowText(cs[i..], numRow, on, term)
      == (line + Cell(cs[i], numRow, on, term)) + RowText(cs[i + 1..], numRow, on, term)
  {
    assert cs[i..][1..] == cs[i + 1..];
  }

  /** What one column writes on a printed line: its row between the padding, or spaces when its rows are used up. */
  method WriteCell(column: Block, numRow: nat, on: bool, term: Terminal) returns (text: string)
    ensures text == Cell(column, numRow, on, term)
  {
    if numRow >= |column.rows| {
      text := WritePadding(column.width, column, numRow, on, term);
    } else {
      var row := column.rows[numRow];
      var gap := SaturatingSub(column.width, row.width);
      text := "";
      if column.align == Right {
        text := WritePadding(gap, column, numRow, on, term);
      }
      var spans := WriteSpans(row.spans, column, on, term);
      text := text + spans;
      if column.align == Left {
        var padding := WritePadding(gap, column, numRow, on, term);
        text := text + padding;
      }
    }
  }

  /** The `padding!` macro. */
  method WritePadding(width: nat, column: Block, numRow: nat, on: bool, term: Terminal) returns (text: string)
    ensures text == Pad(width, column, numRow, on, term)
  {
    text := "";
    if width != 0 {
      var styled := on && column.height > numRow && column.style.Some?;
      if styled {
        text := text + term.prefix(column.style.value);
      }
      text := text + Spaces(width);
      if styled {
        text := text + term.suffix(column.style.value);
      }
    }
  }

  /** The spans of a row, one by one. */
  method WriteSpans(spans: seq<Span>, column: Block, on: bool, term: Terminal) returns (text: string)
    ensures text == SpansText(spans, column, on, term)
  {
    text := "";
    var j := 0;
    while j < |spans|
      invariant j <= |spans|
      invariant text == SpansText(spans[..j], column, on, term)
    {
      ghost var before := text;
      var style := Styles.CombineOpt(column.style, spans[j].style);
      if on && style.Some? {
        text := text + term.prefix(style.value);
      }
      text := text + spans[j].text;
      if on && style.Some? {
        text := text + term.suffix(style.value);
      }
      assert text == before + Styled(spans[j].text, style, on, term);
      assert spans[..j + 1][..j] == spans[..j];
      j := j + 1;
    }
    assert spans[..j] == spans;
  }

  /** Every row fits its column, no more rows than the height, and each row's width is that of its spans. */
  predicate ColumnValid(b: Block, charWidth: Escapes.CharWidth) {
    && BlockValid(b)
    && forall i :: 0 <= i < |b.rows| ==> b.rows[i].width == SpansWidth(b.rows[i].spans, charWidth)
  }

  /** With colours off, spans are written as their bare text. */
  lemma {:induction false} PlainSpans(spans: seq<Span>, column: Block, term: Terminal, charWidth: Escapes.CharWidth)
    ensures SpansText(spans, column, false, term) == Texts(spans)
    ensures StrWidth(Texts(spans), charWidth) == SpansWidth(spans, charWidth)
  {
    if spans != [] {
      var init := spans[..|spans| - 1];
      PlainSpans(init, column, term, charWidth);
      StrWidthConcat(Texts(init), spans[|spans| - 1].text, charWidth);
    }
  }

  /**
   * With colours off, a cell is the row's text with the spaces that make up
   * the column width before it (right-aligned) or after it (left-aligned),
   * or only spaces when the column has no row here; its display width is
   * the larger of the column's and the row's.
   */
  lemma PlainCell(column: Block, numRow: nat, term: Terminal, charWidth: Escapes.CharWidth)
    requires charWidth(' ') == Some(1)
    requires ColumnValid(column, charWidth)
    ensures numRow >= |column.rows| ==> Cell(column, numRow, false, term) == Spaces(column.width)
    ensures numRow < |column.rows| ==>
      var row := column.rows[numRow];
      var gap := SaturatingSub(column.width, row.width);
      Cell(column, numRow, false, term)
        == (if column.align == Right then Spaces(gap) else "") + Texts(row.spans) + (if column.align == Left then Spaces(gap) else "")
    ensures StrWidth(Cell(column, numRow, false, term), charWidth) == column.width
  {
    if numRow >= |column.rows| {
      SpacesWidth(column.width, charWidth);
    } else {
      var row := column.rows[numRow];
      var gap := SaturatingSub(column.width, row.width);
      assert row.width <= column.width && row.width == SpansWidth(row.spans, charWidth);
      PlainSpans(row.spans, column, term, charWidth);
      SpacesWidth(gap, charWidth);
      if column.align == Right {
        StrWidthConcat(Spaces(gap), Texts(row.spans), charWidth);
        assert Spaces(gap) + Texts(row.spans) + "" == Spaces(gap) + Texts(row.spans);
        assert Cell(column, numRow, false, term) == Spaces(gap) + Texts(row.spans) + "";
      } else {
        StrWidthConcat(Texts(row.spans), Spaces(gap), charWidth);
        assert Cell(column, numRow, false, term) == "" + Texts(row.spans) + Spaces(gap);
        assert "" + Texts(row.spans) + Spaces(gap) == Texts(row.spans) + Spaces(gap);
      }
    }
  }

  /** With colours off, a printed line is exactly as wide as the columns together. */
  lemma {:induction false} PlainRowWidth(cs: seq<Block>, numRow: nat, term: Terminal, charWidth: Escapes.CharWidth)
    requires charWidth(' ') == Some(1)
    requires forall i :: 0 <= i < |cs| ==> ColumnValid(cs[i], charWidth)
    ensures StrWidth(RowText(cs, numRow, false, term), charWidth) == SumWidths(cs)
  {
    if cs != [] {
      PlainCell(cs[0], numRow, term, charWidth);
      PlainRowWidth(cs[1..], numRow, term, charWidth);
      StrWidthConcat(Cell(cs[0], numRow, false, term), RowText(cs[1..], numRow, false, term), charWidth);
    }
  }

  /**
   * With colours off and a known terminal width, every printed row is as
   * wide as the kept columns together, and so fits the terminal.
   */
  lemma PrintedRowsFit(columns: seq<Block>, width: Config.NonZero, term: Terminal, charWidth: Escapes.CharWidth)
    requires charWidth(' ') == Some(1)
    requires forall i :: 0 <= i < |columns| ==> ColumnValid(columns[i], charWidth)
    ensures var kept := columns[..Kept(columns, Some(width))];
      var lines := Printed(columns, Some(width), false, term);
      forall i :: 0 <= i < MaxFileRows(kept) ==> StrWidth(lines[i], charWidth) == SumWidths(kept) <= width
  {
    KeptLongest(columns, Some(width));
    var kept := columns[..Kept(columns, Some(width))];
    var n := MaxFileRows(kept);
    RowsTextAt(kept, n, false, term);
    PlainRowWidth(kept, 0, term, charWidth);
    forall i | 0 <= i < n
      ensures StrWidth(Printed(columns, Some(width), false, term)[i], charWidth) == SumWidths(kept)
    {
      PlainRowWidth(kept, i, term, charWidth);
    }
  }

  /** With colours off nothing depends on the escape codes: no escape is written. */
  lemma {:induction false} PlainIgnoresEscapes(cs: seq<Block>, numRow: nat, term: Terminal, other: Terminal)
    ensures RowText(cs, numRow, false, term) == RowText(cs, numRow, false, other)
  {
    if cs != [] {
      PlainIgnoresEscapes(cs[1..], numRow, term, other);
      var c := cs[0];
      if numRow < |c.rows| {
        PlainSpans(c.rows[numRow].spans, c, term, _ => None);
        PlainSpans(c.rows[numRow].spans, c, other, _ => None);
      }
    }
  }

  /** The note follows the rows exactly when columns with files were dropped. */
  lemma DroppedNote(columns: seq<Block>, terminalWidth: Option<Config.NonZero>, on: bool, term: Terminal)
    ensures var k := Kept(columns, terminalWidth);
      var kept := columns[..k];
      var lines := Printed(columns, terminalWidth, on, term);
      && (|lines| == MaxFileRows(kept) <==> forall i :: k <= i < |columns| ==> !columns[i].hasFiles)
      && lines[..MaxFileRows(kept)] == RowsText(kept, MaxFileRows(kept), on, term)
  {
    KeptLongest(columns, terminalWidth);
    var k := Kept(columns, terminalWidth);
    var dropped := columns[k..];
    CountFilesZero(dropped);
    MoreNoteShape(CountFiles(dropped));
    assert forall i :: k <= i < |columns| ==> columns[i] == dropped[i - k];
  }
}
