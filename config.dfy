/**
 * The configuration of the program, as loaded from its YAML file: the
 * columns to show and how entries are assigned to them, the styles, the info
 * boxes and the background collectors, with the defaults that apply when the
 * file leaves something out.
 */
module Config {
  import opened Common
  import Styles

  /** `usize` on a 64-bit target. */
  type Usize = n: nat | n <= USIZE_MAX

  /** `NonZeroUsize`. */
  type NonZero = n: nat | 0 < n <= USIZE_MAX witness 1

  /** A `Duration`, counted in nanoseconds. */
  type Nanos = nat

  const NANOS_PER_MILLI: nat := 1_000_000

  /** A MIME type class, named by the part of the MIME name before the `/` (`image`, `text`, ...). */
  type MimeType = string

  /** A colour as written in the configuration, with the style it was parsed into. */
  datatype Color = Color(original: string, style: Styles.Style)

  datatype ColorsWhen = Auto | Always | Never

  /** Whether to use `LS_COLORS`, or which variable holds the `ls` colour database. */
  datatype LsColors = Bool(enabled: bool) | VarName(name: string)

  datatype Colors = Colors(
    when: Option<ColorsWhen>,
    useLscolors: LsColors,
    columnLabel: Option<Color>,
    nameEllipsis: Option<Color>,
    moreEntries: Option<Color>,
    diffAdded: Option<Color>,
    diffDeleted: Option<Color>,
    styles: seq<Style>,
    styleFiles: seq<string>)

  /** A style rule: the colour and indicator given to the entries its matchers accept. */
  datatype Style = Style(matchers: seq<Matcher>, color: Option<Color>, indicator: Option<Indicator>)

  datatype Indicator = Plain(text: string) | Attrs(text: string, color: Option<Color>)
  {
    /** `Indicator::get`: the text to print and the style to print it with. */
    function Get(): (r: (string, Option<Styles.Style>))
      ensures r.0 == text
      ensures r.1.Some? <==> Attrs? && color.Some?
      ensures r.1.Some? ==> r.1.value == color.value.style
    {
      match this
      case Plain(s) => (s, None)
      case Attrs(t, c) => (t, if c.Some? then Some(c.value.style) else None)
    }
  }

  datatype Grid = Grid(maxRows: Option<NonZero>, maxNameWidth: Option<NonZero>, columnPadding: Option<Usize>)

  datatype Column = Column(
    includeHidden: bool,
    labelText: Option<string>,
    maxNameWidth: Option<NonZero>,
    matchers: seq<Matcher>,
    exclude: seq<Matcher>,
    gitChangesFirst: bool,
    color: Option<Color>,
    sort: Option<SortSpec>)

  datatype SortSpec = SortSpec(key: SortKey, order: SortOrder)

  datatype SortKey = DeepModificationTime | Name | Size | ModificationTime | Version

  datatype SortOrder = Asc | Desc

  /**
   * How a column or a style selects entries. The variant `Not` of the
   * configuration has no evaluation rule in the matcher and is not part of
   * this model.
   */
  datatype Matcher =
    | Any
    | All(all: seq<Matcher>)
    | Changes(changes: Changes)
    | Glob(globs: seq<string>)
    | Mime(mime: MimeType)
    | Regex(regex: string)
    | Type(fileType: FileType)

  datatype Changes = Git | Duration(limit: Nanos)

  /** The file types of a unix system. */
  datatype FileType = BlockDev | CharDev | Directory | Executable | File | Fifo | Socket | SymLink

  datatype Info = Info(
    left: Option<InfoContent>,
    right: Option<InfoContent>,
    column: Option<InfoContent>,
    variables: map<string, seq<Matcher>>)

  datatype InfoContent = Plain(text: string) | Attrs(text: string, color: Option<Color>)
  {
    /** `InfoContent::get`: the format string and the base style of an info box, read as an indicator's are. */
    function Get(): (r: (string, Option<Styles.Style>))
      ensures r.0 == text
      ensures r.1.Some? <==> Attrs? && color.Some?
      ensures r.1.Some? ==> r.1.value == color.value.style
    {
      match this
      case Plain(s) => Indicator.Plain(s).Get()
      case Attrs(t, c) => Indicator.Attrs(t, c).Get()
    }
  }

  datatype Collector = Collector(diskUsage: bool, gitDiff: bool, timeout: Option<Nanos>)

  datatype Root = Root(
    colors: Option<Colors>,
    grid: Grid,
    columns: seq<Column>,
    info: Option<Info>,
    collector: Collector)

  /** `Grid::default()`. */
  const DefaultGrid: Grid := Grid(None, None, None)

  /** `Collector::default()`: both collectors on, with a 100 ms timeout. */
  const DefaultCollector: Collector := Collector(true, true, Some(100 * NANOS_PER_MILLI))

  /** `LsColors::default()`. */
  const DefaultLsColors: LsColors := Bool(true)

  /** `SortSpec::default()`: by name, ascending. */
  const DefaultSortSpec: SortSpec := SortSpec(Name, Asc)

  /** The `colors` section with every field left at its default. */
  const DefaultColors: Colors := Colors(None, DefaultLsColors, None, None, None, None, None, [], [])

  /**
   * `Root::default()`: directories (hidden ones excluded), then every other
   * entry (hidden ones included).
   */
  const DefaultRoot: Root := Root(
    None,
    DefaultGrid,
    [ Column(false, None, None, [Type(Directory)], [], true, None, None),
      Column(true, None, None, [Any], [], true, None, None) ],
    None,
    DefaultCollector)

  /** The colours the renderer works with: the configured ones, or the defaults. */
  function ColorsOf(root: Root): (c: Colors)
    ensures root.colors.None? ==> c == DefaultColors
    ensures root.colors.Some? ==> c == root.colors.value
  {
    root.colors.GetOr(DefaultColors)
  }

  /** The sort order of a column: its own, or by name ascending. */
  function SortOf(column: Column): (spec: SortSpec)
    ensures column.sort.None? ==> spec == SortSpec(Name, Asc)
    ensures column.sort.Some? ==> spec == column.sort.value
  {
    column.sort.GetOr(DefaultSortSpec)
  }

  /** Both `get` accessors give the text and the style of the colour, or no style. */
  lemma GetAgree(text: string, color: Option<Color>)
    ensures Indicator.Attrs(text, color).Get() == InfoContent.Attrs(text, color).Get()
    ensures Indicator.Plain(text).Get() == InfoContent.Plain(text).Get() == (text, None)
  {
  }
}
