/**
 * The elements the renderer builds and the display prints: rows made of
 * styled spans, and columns of rows with their alignment, width and height.
 *
 * `Row` and `Column` are updated in place while they are built. Once a row
 * is pushed into a column, or a column into the screen, it is moved there
 * and nothing changes it any more: from then on it is a value, a `Line` or a
 * `Block`.
 */
module Grid {
  import opened Common
  import Styles
  import Escapes

  datatype Align = Left | Right

  /** `Span`: a piece of text with its own style. */
  datatype Span = Span(text: string, style: Option<Styles.Style>)

  /** A row once it has been pushed into a column. */
  datatype Line = Line(spans: seq<Span>, width: nat)

  /** A column once it has been finished and moved into the screen. */
  datatype Block = Block(
    align: Align,
    width: nat,
    height: nat,
    hasFiles: bool,
    style: Option<Styles.Style>,
    rows: seq<Line>)

  /** `Screen`: the main columns and the three optional info boxes. */
  datatype Screen = Screen(
    columns: seq<Block>,
    infoLeft: Option<Block>,
    infoRight: Option<Block>,
    infoColumn: Option<Block>)

  /**
   * `UnicodeWidthStr::width`: the sum of the widths of the characters, a
   * control character counting as zero.
   */
  function StrWidth(s: string, charWidth: Escapes.CharWidth): nat {
    if s == [] then 0 else charWidth(s[0]).GetOr(0) + StrWidth(s[1..], charWidth)
  }

  lemma {:induction false} StrWidthConcat(a: string, b: string, charWidth: Escapes.CharWidth)
    ensures StrWidth(a + b, charWidth) == StrWidth(a, charWidth) + StrWidth(b, charWidth)
  {
    if a != [] {
      assert (a + b)[1..] == a[1..] + b;
      StrWidthConcat(a[1..], b, charWidth);
    } else {
      assert a + b == b;
    }
  }

  /** The display width of the text of all the spans. */
  function SpansWidth(spans: seq<Span>, charWidth: Escapes.CharWidth): nat {
    if spans == [] then 0 else SpansWidth(spans[..|spans| - 1], charWidth) + StrWidth(spans[|spans| - 1].text, charWidth)
  }

  /** The row a sequence of spans makes when added one by one to a new row. */
  function LineOf(spans: seq<Span>, charWidth: Escapes.CharWidth): Line {
    Line(spans, SpansWidth(spans, charWidth))
  }

  /** `Row`: its width is kept equal to the display width of its spans. */
  class Row {
    var spans: seq<Span>
    var width: nat

    /** `Row::new` and `Row::default`. */
    constructor()
      ensures spans == [] && width == 0
    {
      spans := [];
      width := 0;
    }

    /** The width field is the display width of the spans. */
    predicate Valid(charWidth: Escapes.CharWidth)
      reads this
    {
      width == SpansWidth(spans, charWidth)
    }

    /** `add_text`: one more span, and its text's width added to the row's. */
    method AddText(text: string, style: Option<Styles.Style>, charWidth: Escapes.CharWidth)
      modifies this
      ensures spans == old(spans) + [Span(text, style)]
      ensures width == old(width) + StrWidth(text, charWidth)
      ensures old(Valid(charWidth)) ==> Valid(charWidth)
    {
      width := width + StrWidth(text, charWidth);
      spans := spans + [Span(text, style)];
      assert spans[..|spans| - 1] == old(spans);
    }

    /** `is_empty`: no span has been added, not even one with empty text. */
    function IsEmpty(): (r: bool)
      reads this
      ensures r <==> |spans| == 0
    {
      spans == []
    }

    /** What a column holds once this row is pushed into it. */
    function Value(): Line
      reads this
    {
      Line(spans, width)
    }
  }

  /** A `Row` built from nothing by `add_text` calls has the width its spans give it. */
  method RowWidthExample(charWidth: Escapes.CharWidth) returns (width: nat)
    requires charWidth('\U{3B1}') == Some(1) && charWidth(' ') == Some(1) && charWidth('=') == Some(1)
    requires charWidth('0') == Some(1) && charWidth('(') == Some(1) && charWidth(')') == Some(1)
    requires charWidth('\U{FF20}') == Some(2)
    ensures width == 9
  {
    var row := new Row();
    row.AddText("\U{3B1} = 0", None, charWidth);
    row.AddText("(\U{FF20})", Some(Styles.Plain.(bold := true)), charWidth);
    width := row.width;
  }

  /** No more rows than the height, and every row fits the width. */
  predicate BlockValid(b: Block) {
    && |b.rows| <= b.height
    && forall i :: 0 <= i < |b.rows| ==> b.rows[i].width <= b.width
  }

  /** The widest of the rows, or 0. */
  function MaxWidth(lines: seq<Line>): nat {
    if lines == [] then 0
    else
      var w := MaxWidth(lines[..|lines| - 1]);
      var l := lines[|lines| - 1];
      if l.width > w then l.width else w
  }

  /** The widest row is as wide as `MaxWidth` says, and no row is wider. */
  lemma {:induction false} MaxWidthBounds(lines: seq<Line>)
    ensures forall i :: 0 <= i < |lines| ==> lines[i].width <= MaxWidth(lines)
    ensures lines != [] ==> exists i :: 0 <= i < |lines| && lines[i].width == MaxWidth(lines)
  {
    if lines != [] {
      var init := lines[..|lines| - 1];
      MaxWidthBounds(init);
      var last := |lines| - 1;
      if lines[last].width >= MaxWidth(init) {
        assert lines[last].width == MaxWidth(lines);
      } else {
        var j :| 0 <= j < |init| && init[j].width == MaxWidth(init);
        assert lines[j] == init[j];
      }
      forall i | 0 <= i < |init|
        ensures lines[i].width <= MaxWidth(lines)
      {
        assert lines[i] == init[i];
      }
    }
  }

  /** The column `Column::new(hasFiles)` becomes after `lines` are pushed into it. */
  function Built(hasFiles: bool, lines: seq<Line>): (b: Block)
    ensures b.align == Left && b.style == None && b.hasFiles == hasFiles
    ensures b.rows == lines && b.height == |lines|
  {
    Block(Left, MaxWidth(lines), |lines|, hasFiles, None, lines)
  }

  /** What `push` makes of a column: the width grows to the row's, the height by one, and the row goes last. */
  function Pushed(b: Block, l: Line): Block {
    b.(width := Max(b.width, l.width), height := b.height + 1, rows := b.rows + [l])
  }

  /** `Column`, while it is being built. */
  class Column {
    var align: Align
    var width: nat
    var height: nat
    const hasFiles: bool
    var style: Option<Styles.Style>
    var rows: seq<Line>

    /** `Column::new`: left-aligned, empty, no style. */
    constructor New(hasFiles: bool)
      ensures align == Left && width == 0 && height == 0 && this.hasFiles == hasFiles
      ensures style == None && rows == []
    {
      align := Left;
      width := 0;
      height := 0;
      this.hasFiles := hasFiles;
      style := None;
      rows := [];
    }

    /** `Column::padding`: a column of spaces only, with no row. */
    constructor Padding(width: nat, height: nat, style: Option<Styles.Style>)
      ensures align == Left && this.width == width && this.height == height && !hasFiles
      ensures this.style == style && rows == []
    {
      align := Left;
      this.width := width;
      this.height := height;
      hasFiles := false;
      this.style := style;
      rows := [];
    }

    /** Every row fits the width, and there are no more rows than the height. */
    predicate Valid()
      reads this
    {
      BlockValid(Value())
    }

    function Value(): Block
      reads this
    {
      Block(align, width, height, hasFiles, style, rows)
    }

    /** `align_right`. */
    method AlignRight()
      modifies this
      ensures Value() == old(Value()).(align := Right)
    {
      align := Right;
    }

    /** `set_style`. */
    method SetStyle(style: Option<Styles.Style>)
      modifies this
      ensures Value() == old(Value()).(style := style)
    {
      this.style := style;
    }

    /** `set_height`: the height is replaced, and rows past it are dropped; the width stays. */
    method SetHeight(height: nat)
      modifies this
      ensures Value() == old(Value()).(height := height, rows := old(rows)[..Min(height, |old(rows)|)])
      ensures old(Valid()) ==> Valid()
    {
      this.height := height;
      rows := rows[..Min(height, |rows|)];
    }

    /** `push`: the width grows to the row's, the height by one, and the row goes last. */
    method Push(row: Row)
      modifies this
      ensures Value() == Pushed(old(Value()), row.Value())
      ensures old(Valid()) ==> Valid()
    {
      if row.width > width {
        width := row.width;
      }
      height := height + 1;
      rows := rows + [row.Value()];
    }
  }

  /** A column built by pushes keeps every row within its width and its height. */
  lemma BuiltValid(hasFiles: bool, lines: seq<Line>)
    ensures BlockValid(Built(hasFiles, lines))
  {
    MaxWidthBounds(lines);
  }

  /** `push` keeps every row within the width and the height. */
  lemma PushedValid(b: Block, l: Line)
    requires BlockValid(b)
    ensures BlockValid(Pushed(b, l))
  {
  }

  /** Pushing one more row onto a new column gives the column built from one more row. */
  lemma BuiltSnoc(hasFiles: bool, lines: seq<Line>, l: Line)
    ensures Built(hasFiles, lines + [l]) == Pushed(Built(hasFiles, lines), l)
  {
    assert (lines + [l])[..|lines|] == lines;
  }
}
