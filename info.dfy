/**
 * The tokenizer of the info-box format strings: plain text and the
 * specifiers `%P %p %S %+ %- %% %C{…} %V{…}`.
 *
 * The format string is a sequence of characters. Every character the
 * tokenizer looks for (`%`, `}`, the specifier letters) is ASCII, so the
 * byte offsets of the code and the character offsets here pick the same
 * places. `colorparse::parse` is the parameter `parseColor`.
 */
module Info {
  import opened Common
  import Styles

  datatype Token =
    | Text(text: string)
    | Variable(name: string)
    | Style(style: Styles.Style)
    | StyleReset
    | Path
    | PathHome
    | DiskUsage
    | AddedLines
    | DeletedLines

  /** The first position of `c` in `s` (`memchr`). */
  function Find(s: string, c: char): (r: Option<nat>)
    ensures r.Some? ==> r.value < |s| && s[r.value] == c && c !in s[..r.value]
    ensures r.None? ==> c !in s
  {
    if s == [] then None
    else if s[0] == c then Some(0)
    else
      var r := Find(s[1..], c);
      assert s == [s[0]] + s[1..];
      if r.None? then None else Some(r.value + 1)
  }

  /** The characters Unicode calls `White_Space`, which `str::trim` removes. */
  predicate IsWhitespace(c: char) {
    || ('\U{9}' <= c <= '\U{D}') || c == '\U{20}' || c == '\U{85}' || c == '\U{A0}' || c == '\U{1680}'
    || ('\U{2000}' <= c <= '\U{200A}') || c == '\U{2028}' || c == '\U{2029}' || c == '\U{202F}'
    || c == '\U{205F}' || c == '\U{3000}'
  }

  /** `s` without its leading white space. */
  function TrimStart(s: string): (r: string)
    ensures r == [] || !IsWhitespace(r[0])
    ensures |r| <= |s| && r == s[|s| - |r|..]
  {
    if s != [] && IsWhitespace(s[0]) then TrimStart(s[1..]) else s
  }

  /** `s` without its trailing white space. */
  function TrimEnd(s: string): (r: string)
    ensures r == [] || !IsWhitespace(r[|r| - 1])
    ensures |r| <= |s| && r == s[..|r|]
  {
    if s != [] && IsWhitespace(s[|s| - 1]) then TrimEnd(s[..|s| - 1]) else s
  }

  /** `str::trim`: `s` without its leading and trailing white space. */
  function Trim(s: string): (r: string)
    ensures r == [] || (!IsWhitespace(r[0]) && !IsWhitespace(r[|r| - 1]))
  {
    var t := TrimStart(s);
    var r := TrimEnd(t);
    assert r != [] ==> r[0] == t[0];
    r
  }

  /** The first `c` after a prefix without one. */
  lemma {:induction false} FindAfter(a: string, c: char, b: string)
    requires c !in a && b != [] && b[0] == c
    ensures Find(a + b, c) == Some(|a|)
  {
    if a != [] {
      assert (a + b)[0] == a[0];
      assert (a + b)[1..] == a[1..] + b;
      FindAfter(a[1..], c, b);
    } else {
      assert a + b == b;
    }
  }

  /**
   * `parse_color`, on the format after its `%`: up to the first `}`, which
   * must exist and come after a leading `C{`; the trimmed text between them
   * is `reset` or a colour `parseColor` accepts. The count is the characters
   * taken, the `}` included.
   */
  function ParseColor(format: string, parseColor: string -> Option<Styles.Style>): (r: Option<(Token, nat)>)
    ensures r.Some? ==> Find(format, '}').Some? && r.value.1 == Find(format, '}').value + 1
    ensures r.Some? ==> |format| >= 3 && format[0] == 'C' && format[1] == '{'
    ensures r.Some? ==> r.value.0.StyleReset? || r.value.0.Style?
  {
    match Find(format, '}')
    case None => None
    case Some(end) =>
      if end < 2 || format[0] != 'C' || format[1] != '{' then None
      else
        var c := Trim(format[2..end]);
        if c == "reset" then Some((StyleReset, end + 1))
        else match parseColor(c) {
          case None => None
          case Some(style) => Some((Style(style), end + 1))
        }
  }

  /** `parse_variable`: like a colour, with `V{` and the name as it is, untrimmed. */
  function ParseVariable(format: string): (r: Option<(Token, nat)>)
    ensures r.Some? ==> Find(format, '}').Some? && r.value.1 == Find(format, '}').value + 1
    ensures r.Some? ==> r.value.0.Variable? && format == "V{" + r.value.0.name + "}" + format[r.value.1..]
  {
    match Find(format, '}')
    case None => None
    case Some(end) =>
      if end < 2 || format[0] != 'V' || format[1] != '{' then None
      else
        assert format == format[..2] + format[2..end] + "}" + format[end + 1..];
        Some((Variable(format[2..end]), end + 1))
  }

  /**
   * `parse_specifier`: the token of the specifier that starts `s`, and how
   * many characters it takes, the `%` included.
   */
  function Specifier(s: string, parseColor: string -> Option<Styles.Style>): (r: Option<(Token, nat)>)
    ensures r.Some? ==> |s| >= 2 && s[0] == '%' && 2 <= r.value.1 <= |s|
  {
    if |s| < 2 || s[0] != '%' then None
    else
      var format := s[1..];
      var found :=
        match format[0]
        case 'P' => Some((Path, 1))
        case 'p' => Some((PathHome, 1))
        case 'S' => Some((DiskUsage, 1))
        case '+' => Some((AddedLines, 1))
        case '-' => Some((DeletedLines, 1))
        case 'C' => ParseColor(format, parseColor)
        case 'V' => ParseVariable(format)
        case '%' => Some((Text("%"), 1))
        case _ => None;
      if found.None? then None else Some((found.value.0, found.value.1 + 1))
  }

  /**
   * `next` on a non-empty rest: the token and the new rest. A specifier is
   * taken whole; otherwise the text runs to the next `%` after the first
   * character, or to the end when there is none or when that `%` is the
   * last character.
   */
  function NextToken(s: string, parseColor: string -> Option<Styles.Style>): (r: (Token, string))
    requires s != []
    ensures |r.1| < |s| && r.1 == s[|s| - |r.1|..]
    ensures r.0.Text? ==> r.0.text != []
  {
    match Specifier(s, parseColor)
    case Some((token, n)) => (token, s[n..])
    case None =>
      match Find(s[1..], '%')
      case None => (Text(s), [])
      case Some(idx) =>
        var k := idx + 1;
        if s[k..] == "%" then (Text(s), []) else (Text(s[..k]), s[k..])
  }

  /** Every token of `s`, in order: the tokens `parse` yields. */
  function Tokens(s: string, parseColor: string -> Option<Styles.Style>): (ts: seq<Token>)
    ensures s == [] <==> ts == []
    decreases |s|
  {
    if s == [] then []
    else
      var (t, rest) := NextToken(s, parseColor);
      [t] + Tokens(rest, parseColor)
  }

  /** `Parser`: the part of the format string not yet tokenized. */
  class Parser {
    var rest: string

    /** `parse`: a parser over the whole format. */
    constructor(format: string)
      ensures rest == format
    {
      rest := format;
    }

    /** `parse_specifier`: takes the specifier at the start of the rest, if there is one, and nothing otherwise. */
    method ParseSpecifier(parseColor: string -> Option<Styles.Style>) returns (t: Option<Token>)
      modifies this
      ensures Specifier(old(rest), parseColor).None? ==> t.None? && rest == old(rest)
      ensures Specifier(old(rest), parseColor).Some? ==>
        t == Some(Specifier(old(rest), parseColor).value.0) && rest == old(rest)[Specifier(old(rest), parseColor).value.1..]
    {
      var spec := Specifier(rest, parseColor);
      if spec.None? {
        return None;
      }
      rest := rest[spec.value.1..];
      return Some(spec.value.0);
    }

    /** `consume_pending`: the whole rest as one text, and nothing left. */
    method ConsumePending() returns (t: Option<Token>)
      modifies this
      ensures old(rest) == [] ==> t.None?
      ensures old(rest) != [] ==> t == Some(Text(old(rest)))
      ensures rest == []
    {
      if rest == [] {
        return None;
      }
      t := Some(Text(rest));
      rest := [];
    }

    /** `next`: nothing once the rest is empty; otherwise the next token, and the rest shrinks. */
    method Next(parseColor: string -> Option<Styles.Style>) returns (t: Option<Token>)
      modifies this
      ensures old(rest) == [] ==> t.None? && rest == []
      ensures old(rest) != [] ==> t.Some? && (t.value, rest) == NextToken(old(rest), parseColor)
    {
      if rest == [] {
        return None;
      }
      var sp := ParseSpecifier(parseColor);
      if sp.Some? {
        return sp;
      }
      var found := Find(rest[1..], '%');
      if found.None? {
        t := ConsumePending();
        return;
      }
      var specIdx := found.value + 1;
      var before, after := rest[..specIdx], rest[specIdx..];
      if after == "%" {
        t := ConsumePending();
        return;
      }
      rest := after;
      return Some(Text(before));
    }
  }

  lemma TokensUnfold(s: string, parseColor: string -> Option<Styles.Style>)
    requires s != []
    ensures Tokens(s, parseColor) == [NextToken(s, parseColor).0] + Tokens(NextToken(s, parseColor).1, parseColor)
  {
  }

  /** Iterating `parse(format)` to the end: the tokens of the format, in order. */
  method Parse(format: string, parseColor: string -> Option<Styles.Style>) returns (tokens: seq<Token>)
    ensures tokens == Tokens(format, parseColor)
  {
    var p := new Parser(format);
    tokens := [];
    while true
      invariant tokens + Tokens(p.rest, parseColor) == Tokens(format, parseColor)
      decreases |p.rest|
    {
      ghost var before := p.rest;
      var t := p.Next(parseColor);
      if t.None? {
        return;
      }
      TokensUnfold(before, parseColor);
      tokens := tokens + [t.value];
    }
  }

  // ---------------------------------------------------------------------
  // Properties of the tokenizer.

  /** Every text token is non-empty. */
  lemma {:induction false} TextsNonEmpty(s: string, parseColor: string -> Option<Styles.Style>)
    ensures forall i :: 0 <= i < |Tokens(s, parseColor)| && Tokens(s, parseColor)[i].Text? ==>
      Tokens(s, parseColor)[i].text != []
    decreases |s|
  {
    if s != [] {
      TextsNonEmpty(NextToken(s, parseColor).1, parseColor);
    }
  }

  /** A text with no `%` is one text token. */
  lemma PlainText(s: string, parseColor: string -> Option<Styles.Style>)
    requires s != [] && '%' !in s
    ensures Tokens(s, parseColor) == [Text(s)]
  {
    assert '%' !in s[1..];
  }

  /** A `%` at the very end stays in the text before it. */
  lemma TrailingPercent(s: string, parseColor: string -> Option<Styles.Style>)
    requires '%' !in s
    ensures Tokens(s + "%", parseColor) == [Text(s + "%")]
  {
    TrailingPercentToken(s, parseColor);
    TokensUnfold(s + "%", parseColor);
  }

  lemma TrailingPercentToken(s: string, parseColor: string -> Option<Styles.Style>)
    requires '%' !in s
    ensures NextToken(s + "%", parseColor) == (Text(s + "%"), [])
  {
    var t := s + "%";
    if s != [] {
      assert t[1..] == s[1..] + "%";
      assert '%' !in s[1..];
      assert Find(t[1..], '%') == Some(|s| - 1);
      assert t[|s|..] == "%";
    }
  }

  /** `%%` is the text `%`. */
  lemma PercentPercent(r: string, parseColor: string -> Option<Styles.Style>)
    ensures NextToken("%%" + r, parseColor) == (Text("%"), r)
  {
    assert ("%%" + r)[1..][0] == '%';
    assert ("%%" + r)[2..] == r;
  }

  /** `%C{reset}`, with white space around `reset`, resets the style. */
  lemma ResetSpecifier(name: string, r: string, parseColor: string -> Option<Styles.Style>)
    requires '}' !in name && Trim(name) == "reset"
    ensures NextToken("%C{" + name + "}" + r, parseColor) == (StyleReset, r)
  {
    var s := "%C{" + name + "}" + r;
    var format := "C{" + name + "}" + r;
    var end := |name| + 2;
    assert s[1..] == format;
    assert format == ("C{" + name) + ("}" + r);
    FindAfter("C{" + name, '}', "}" + r);
    assert format[0] == 'C' && format[1] == '{' && format[2..end] == name;
    assert s[end + 2..] == r;
  }

  /** `str::trim` on `reset` with white space around it. */
  lemma {:induction false} TrimAround(pad1: string, core: string, pad2: string)
    requires forall i :: 0 <= i < |pad1| ==> IsWhitespace(pad1[i])
    requires forall i :: 0 <= i < |pad2| ==> IsWhitespace(pad2[i])
    requires core != [] && !IsWhitespace(core[0]) && !IsWhitespace(core[|core| - 1])
    ensures Trim(pad1 + core + pad2) == core
  {
    var s := pad1 + core + pad2;
    TrimStartPrefix(pad1, core + pad2);
    assert s == pad1 + (core + pad2);
    TrimEndSuffix(core, pad2);
  }

  lemma {:induction false} TrimStartPrefix(pad: string, s: string)
    requires forall i :: 0 <= i < |pad| ==> IsWhitespace(pad[i])
    requires s != [] && !IsWhitespace(s[0])
    ensures TrimStart(pad + s) == s
  {
    if pad != [] {
      assert (pad + s)[0] == pad[0];
      assert (pad + s)[1..] == pad[1..] + s;
      TrimStartPrefix(pad[1..], s);
    } else {
      assert pad + s == s;
    }
  }

  lemma {:induction false} TrimEndSuffix(s: string, pad: string)
    requires forall i :: 0 <= i < |pad| ==> IsWhitespace(pad[i])
    requires s != [] && !IsWhitespace(s[|s| - 1])
    ensures TrimEnd(s + pad) == s
  {
    if pad != [] {
      assert (s + pad)[|s + pad| - 1] == pad[|pad| - 1];
      assert (s + pad)[..|s + pad| - 1] == s + pad[..|pad| - 1];
      TrimEndSuffix(s, pad[..|pad| - 1]);
    } else {
      assert s + pad == s;
    }
  }

  /** `%C{colour}`: a colour `parseColor` accepts (after trimming) is a style token. */
  lemma ColorSpecifier(name: string, r: string, parseColor: string -> Option<Styles.Style>)
    requires '}' !in name && Trim(name) != "reset" && parseColor(Trim(name)).Some?
    ensures NextToken("%C{" + name + "}" + r, parseColor) == (Style(parseColor(Trim(name)).value), r)
  {
    var s := "%C{" + name + "}" + r;
    assert s[1..] == "C{" + name + "}" + r;
    ColorParsed(name, r, parseColor);
    SpecifierColor(s, parseColor);
    NextTokenSpecifier(s, parseColor);
    assert s[|name| + 4..] == r;
  }

  /** `parse_color` on `C{name}` followed by anything: the colour of the trimmed name. */
  lemma ColorParsed(name: string, r: string, parseColor: string -> Option<Styles.Style>)
    requires '}' !in name && Trim(name) != "reset" && parseColor(Trim(name)).Some?
    ensures ParseColor("C{" + name + "}" + r, parseColor) == Some((Style(parseColor(Trim(name)).value), |name| + 3))
  {
    var format := "C{" + name + "}" + r;
    var end := |name| + 2;
    assert format == ("C{" + name) + ("}" + r);
    FindAfter("C{" + name, '}', "}" + r);
    assert format[0] == 'C' && format[1] == '{' && format[2..end] == name;
  }

  /** A specifier starting `%C` is the colour `parse_color` reads after the `%`. */
  lemma SpecifierColor(s: string, parseColor: string -> Option<Styles.Style>)
    requires |s| >= 2 && s[0] == '%' && s[1] == 'C'
    ensures ParseColor(s[1..], parseColor).Some? ==>
      Specifier(s, parseColor) == Some((ParseColor(s[1..], parseColor).value.0, ParseColor(s[1..], parseColor).value.1 + 1))
  {
    var format := s[1..];
    assert format[0] == 'C';
    var found := ParseColor(format, parseColor);
    assert Specifier(s, parseColor) == if found.None? then None else Some((found.value.0, found.value.1 + 1));
  }

  /** A rest starting with a specifier yields that specifier's token. */
  lemma NextTokenSpecifier(s: string, parseColor: string -> Option<Styles.Style>)
    requires s != [] && Specifier(s, parseColor).Some?
    ensures NextToken(s, parseColor) == (Specifier(s, parseColor).value.0, s[Specifier(s, parseColor).value.1..])
  {
  }


  /** `%V{name}` is the variable `name`, untrimmed. */
  lemma VariableSpecifier(name: string, r: string, parseColor: string -> Option<Styles.Style>)
    requires '}' !in name
    ensures NextToken("%V{" + name + "}" + r, parseColor) == (Variable(name), r)
  {
    var s := "%V{" + name + "}" + r;
    var format := "V{" + name + "}" + r;
    var end := |name| + 2;
    assert s[1..] == format;
    assert format == ("V{" + name) + ("}" + r);
    FindAfter("V{" + name, '}', "}" + r);
    assert format[0] == 'V' && format[1] == '{' && format[2..end] == name;
    assert ParseVariable(format) == Some((Variable(name), end + 1));
    assert s[end + 2..] == r;
  }

  /** A `%C{` or `%V{` with no `}` after it is no specifier. */
  lemma Unclosed(c: char, r: string, parseColor: string -> Option<Styles.Style>)
    requires c == 'C' || c == 'V'
    requires '}' !in r
    ensures Specifier("%" + [c] + "{" + r, parseColor).None?
  {
    var s := "%" + [c] + "{" + r;
    assert s[1..] == [c] + "{" + r;
    assert '}' !in s[1..];
  }

  /** A `%` followed by anything but a known letter is text, up to the next `%`. */
  lemma UnknownSpecifier(c: char, r: string, parseColor: string -> Option<Styles.Style>)
    requires c !in "PpS+-CV%"
    requires r != [] && r[0] == '%' && r != "%"
    ensures NextToken("%" + [c] + r, parseColor) == (Text("%" + [c]), r)
  {
    var s := "%" + [c] + r;
    assert s[1..] == [c] + r;
    assert Find(s[1..], '%') == Some(1);
    assert s[..2] == "%" + [c] && s[2..] == r;
  }

  /** The row `aaa%` of the unit test: a `%` at the end stays in the text. */
  lemma ExampleTrailingPercent(parseColor: string -> Option<Styles.Style>)
    ensures Tokens("aaa%", parseColor) == [Text("aaa%")]
  {
    TrailingPercent("aaa", parseColor);
    assert "aaa" + "%" == "aaa%";
  }

  /** The row `%P%` of the unit test. */
  lemma ExamplePathPercent(parseColor: string -> Option<Styles.Style>)
    ensures Tokens("%P%", parseColor) == [Path, Text("%")]
  {
    SimpleSpecifier('P', "%", parseColor);
    assert "%" + ['P'] + "%" == "%P%";
    assert Tokens("%", parseColor) == [Text("%")];
  }

  /** The row `aaa` of the unit test. */
  lemma ExamplePlain(parseColor: string -> Option<Styles.Style>)
    ensures Tokens("aaa", parseColor) == [Text("aaa")]
  {
    PlainText("aaa", parseColor);
  }

  /** The row `x%α` of the unit test: a `%` before a multi-byte character is text. */
  lemma ExampleMultiByte(parseColor: string -> Option<Styles.Style>)
    ensures Tokens("x%\U{3B1}", parseColor) == [Text("x"), Text("%\U{3B1}")]
  {
    var alpha := "%\U{3B1}";
    assert "x%\U{3B1}" == "x" + alpha;
    assert alpha[1..] == "\U{3B1}";
    assert Find(alpha[1..], '%').None?;
    assert Specifier(alpha, parseColor).None?;
    assert NextToken(alpha, parseColor) == (Text(alpha), []);
    assert ("x" + alpha)[1..] == alpha && ("x" + alpha)[..1] == "x";
    assert Find(alpha, '%') == Some(0);
    assert Specifier("x" + alpha, parseColor).None?;
    assert alpha != "%" by {
      assert |alpha| == 2;
    }
    assert NextToken("x" + alpha, parseColor) == (Text("x"), alpha);
  }

  /** `%P`, `%p`, `%S`, `%+` and `%-` take two characters each. */
  lemma SimpleSpecifier(c: char, r: string, parseColor: string -> Option<Styles.Style>)
    requires c in "PpS+-"
    ensures NextToken("%" + [c] + r, parseColor) ==
      (match c case 'P' => Path case 'p' => PathHome case 'S' => DiskUsage case '+' => AddedLines case _ => DeletedLines, r)
  {
    var s := "%" + [c] + r;
    assert s[1..][0] == c && s[2..] == r;
  }

  /** Text without `%` before a specifier is one text token. */
  lemma TextBefore(a: string, r: string, parseColor: string -> Option<Styles.Style>)
    requires a != [] && '%' !in a
    requires r != [] && r[0] == '%' && r != "%"
    ensures NextToken(a + r, parseColor) == (Text(a), r)
  {
    var s := a + r;
    assert s[0] == a[0];
    assert s[1..] == a[1..] + r;
    assert '%' !in a[1..];
    FindAfter(a[1..], '%', r);
    assert s[..|a|] == a && s[|a|..] == r;
  }

  /**
   * The first row of the unit test, with every kind of specifier; the format
   * is written in the pieces its tokens come from. The colour
   * names are decoded by `colorparse`, a parameter here: the lemma holds for
   * whatever styles it gives for `blue bold` and `red`.
   */
  lemma ExampleAllSpecifiers(parseColor: string -> Option<Styles.Style>, blue: Styles.Style, red: Styles.Style)
    requires parseColor("blue bold") == Some(blue) && parseColor("red") == Some(red)
    ensures Tokens("%C{blue bold}" + " " + "%P" + " " + "%p" + " : " + "%S" + "%+" + "%-" + "%C{reset}" + "%C{red}"
      + "%V{dirs}" + " " + "%%" + "dirs", parseColor)
      == [Style(blue), Text(" "), Path, Text(" "), PathHome, Text(" : "), DiskUsage, AddedLines, DeletedLines,
          StyleReset, Style(red), Variable("dirs"), Text(" "), Text("%"), Text("dirs")]
  {
    AllSpecifiersThen(parseColor, blue, red, "dirs");
  }

  /** The format of the example above, ending in any text without `%`. */
  lemma AllSpecifiersThen(parseColor: string -> Option<Styles.Style>, blue: Styles.Style, red: Styles.Style, tail: string)
    requires parseColor("blue bold") == Some(blue) && parseColor("red") == Some(red)
    requires tail != [] && '%' !in tail
    ensures Tokens("%C{blue bold}" + " " + "%P" + " " + "%p" + " : " + "%S" + "%+" + "%-" + "%C{reset}" + "%C{red}"
      + "%V{dirs}" + " " + "%%" + tail, parseColor)
      == [Style(blue), Text(" "), Path, Text(" "), PathHome, Text(" : "), DiskUsage, AddedLines, DeletedLines,
          StyleReset, Style(red), Variable("dirs"), Text(" "), Text("%"), Text(tail)]
  {
    var s10 := "%C{" + "reset" + "}" + ("%C{" + "red" + "}" + ("%V{" + "dirs" + "}" + (" " + ("%%" + tail))));
    var l10 := [StyleReset] + ([Style(red)] + ([Variable("dirs")] + ([Text(" ")] + ([Text("%")] + [Text(tail)]))));
    TrimmedNames();
    NamesUnbraced();
    ClosingTokens(parseColor, "dirs", tail);
    StyleTokens(parseColor, "reset", "red", red, "%V{" + "dirs" + "}" + (" " + ("%%" + tail)),
      [Variable("dirs")] + ([Text(" ")] + ([Text("%")] + [Text(tail)])));
    var s7 := "%" + ['S'] + ("%" + ['+'] + ("%" + ['-'] + s10));
    var l7 := [DiskUsage] + ([AddedLines] + ([DeletedLines] + l10));
    StatisticsTokens(parseColor, s10, l10);
    OpeningTokens(parseColor, "blue bold", blue, s7, l7);
    FormatPieces(tail);
    TokenPieces(blue, red, tail);
  }

  /** The colour names of the example are already trimmed. */
  lemma TrimmedNames()
    ensures Trim("blue bold") == "blue bold" && Trim("reset") == "reset" && Trim("red") == "red"
  {
    TrimmedBlueBold();
    TrimmedReset();
    TrimmedRed();
  }

  lemma TrimmedBlueBold()
    ensures Trim("blue bold") == "blue bold"
  {
    Untrimmed("blue bold");
  }

  lemma TrimmedReset()
    ensures Trim("reset") == "reset"
  {
    Untrimmed("reset");
  }

  lemma TrimmedRed()
    ensures Trim("red") == "red"
  {
    Untrimmed("red");
  }

  /** A string with no white space at either end is its own trim. */
  lemma Untrimmed(name: string)
    requires name != [] && !IsWhitespace(name[0]) && !IsWhitespace(name[|name| - 1])
    ensures Trim(name) == name
  {
    TrimAround([], name, []);
    assert [] + name + [] == name;
  }

  /** The names of the example hold no `}`, and only `reset` is the reset name. */
  lemma NamesUnbraced()
    ensures '}' !in "blue bold" && '}' !in "reset" && '}' !in "red" && '}' !in "dirs"
    ensures "blue bold" != "reset" && "red" != "reset"
  {
    assert "blue bold"[0] != "reset"[0];
    assert "red"[2] != "reset"[2];
  }

  /** `%C{reset}%C{name}` in front of any rest. */
  lemma StyleTokens(parseColor: string -> Option<Styles.Style>, reset: string, name: string, red: Styles.Style,
                    rest: string, ts: seq<Token>)
    requires '}' !in reset && Trim(reset) == "reset"
    requires '}' !in name && Trim(name) != "reset" && parseColor(Trim(name)) == Some(red)
    requires Tokens(rest, parseColor) == ts
    ensures Tokens("%C{" + reset + "}" + ("%C{" + name + "}" + rest), parseColor) == [StyleReset] + ([Style(red)] + ts)
  {
    var s11 := "%C{" + name + "}" + rest;
    var s10 := "%C{" + reset + "}" + s11;
    ColorSpecifier(name, rest, parseColor);
    TokenStep(s11, Style(red), rest, ts, parseColor);
    ResetSpecifier(reset, s11, parseColor);
    TokenStep(s10, StyleReset, s11, [Style(red)] + ts, parseColor);
  }

  /** The end of the example: `%V{variable} %%` and a text without `%`. */
  lemma ClosingTokens(parseColor: string -> Option<Styles.Style>, variable: string, tail: string)
    requires '}' !in variable
    requires tail != [] && '%' !in tail
    ensures Tokens("%V{" + variable + "}" + (" " + ("%%" + tail)), parseColor)
      == [Variable(variable)] + ([Text(" ")] + ([Text("%")] + [Text(tail)]))
  {
    var s14 := "%%" + tail;
    var s13 := " " + s14;
    var s12 := "%V{" + variable + "}" + s13;
    PlainText(tail, parseColor);
    PercentPercent(tail, parseColor);
    TokenStep(s14, Text("%"), tail, [Text(tail)], parseColor);
    TextBefore(" ", s14, parseColor);
    TokenStep(s13, Text(" "), s14, [Text("%")] + [Text(tail)], parseColor);
    VariableSpecifier(variable, s13, parseColor);
    TokenStep(s12, Variable(variable), s13, [Text(" ")] + ([Text("%")] + [Text(tail)]), parseColor);
  }

  /** `%S%+%-` in front of any rest. */
  lemma StatisticsTokens(parseColor: string -> Option<Styles.Style>, rest: string, ts: seq<Token>)
    requires Tokens(rest, parseColor) == ts
    ensures Tokens("%" + ['S'] + ("%" + ['+'] + ("%" + ['-'] + rest)), parseColor)
      == [DiskUsage] + ([AddedLines] + ([DeletedLines] + ts))
  {
    var s9 := "%" + ['-'] + rest;
    var s8 := "%" + ['+'] + s9;
    var s7 := "%" + ['S'] + s8;
    SimpleSpecifier('-', rest, parseColor);
    TokenStep(s9, DeletedLines, rest, ts, parseColor);
    SimpleSpecifier('+', s9, parseColor);
    TokenStep(s8, AddedLines, s9, [DeletedLines] + ts, parseColor);
    SimpleSpecifier('S', s8, parseColor);
    TokenStep(s7, DiskUsage, s8, [AddedLines] + ([DeletedLines] + ts), parseColor);
  }

  /** The example up to ` : `, in front of any rest that starts with a specifier. */
  lemma OpeningTokens(parseColor: string -> Option<Styles.Style>, name: string, blue: Styles.Style, rest: string,
                      ts: seq<Token>)
    requires '}' !in name && Trim(name) != "reset" && parseColor(Trim(name)) == Some(blue)
    requires |rest| >= 2 && rest[0] == '%' && Tokens(rest, parseColor) == ts
    ensures Tokens("%C{" + name + "}" + (" " + ("%" + ['P'] + (" " + ("%" + ['p'] + (" : " + rest))))), parseColor)
      == [Style(blue)] + ([Text(" ")] + ([Path] + ([Text(" ")] + ([PathHome] + ([Text(" : ")] + ts)))))
  {
    assert rest != "%";
    var s6 := " : " + rest;
    var s5 := "%" + ['p'] + s6;
    var s4 := " " + s5;
    var s3 := "%" + ['P'] + s4;
    var s2 := " " + s3;
    var s1 := "%C{" + name + "}" + s2;
    TextBefore(" : ", rest, parseColor);
    TokenStep(s6, Text(" : "), rest, ts, parseColor);
    SimpleSpecifier('p', s6, parseColor);
    TokenStep(s5, PathHome, s6, [Text(" : ")] + ts, parseColor);
    TextBefore(" ", s5, parseColor);
    TokenStep(s4, Text(" "), s5, [PathHome] + ([Text(" : ")] + ts), parseColor);
    SimpleSpecifier('P', s4, parseColor);
    TokenStep(s3, Path, s4, [Text(" ")] + ([PathHome] + ([Text(" : ")] + ts)), parseColor);
    TextBefore(" ", s3, parseColor);
    TokenStep(s2, Text(" "), s3, [Path] + ([Text(" ")] + ([PathHome] + ([Text(" : ")] + ts))), parseColor);
    ColorSpecifier(name, s2, parseColor);
    TokenStep(s1, Style(blue), s2, [Text(" ")] + ([Path] + ([Text(" ")] + ([PathHome] + ([Text(" : ")] + ts)))),
      parseColor);
  }

  /** The example's format, regrouped from the front: the proof above peels it one token at a time. */
  lemma FormatPieces(tail: string)
    ensures "%C{" + "blue bold" + "}" + (" " + ("%" + ['P'] + (" " + ("%" + ['p'] + (" : " + ("%" + ['S'] + ("%" + ['+']
      + ("%" + ['-'] + ("%C{" + "reset" + "}" + ("%C{" + "red" + "}" + ("%V{" + "dirs" + "}" + (" " + ("%%" + tail)))))))))))))
      == "%C{blue bold}" + " " + "%P" + " " + "%p" + " : " + "%S" + "%+" + "%-" + "%C{reset}" + "%C{red}"
      + "%V{dirs}" + " " + "%%" + tail
  {
  }

  /** The example's tokens, regrouped from the front. */
  lemma TokenPieces(blue: Styles.Style, red: Styles.Style, tail: string)
    ensures [Style(blue)] + ([Text(" ")] + ([Path] + ([Text(" ")] + ([PathHome] + ([Text(" : ")] + ([DiskUsage]
      + ([AddedLines] + ([DeletedLines] + ([StyleReset] + ([Style(red)] + ([Variable("dirs")] + ([Text(" ")]
      + ([Text("%")] + [Text(tail)])))))))))))))
      == [Style(blue), Text(" "), Path, Text(" "), PathHome, Text(" : "), DiskUsage, AddedLines, DeletedLines,
          StyleReset, Style(red), Variable("dirs"), Text(" "), Text("%"), Text(tail)]
  {
  }

  /** One token off the front: what `next` yields, then the tokens of the rest. */
  lemma TokenStep(s: string, t: Token, rest: string, ts: seq<Token>, parseColor: string -> Option<Styles.Style>)
    requires s != [] && NextToken(s, parseColor) == (t, rest) && Tokens(rest, parseColor) == ts
    ensures Tokens(s, parseColor) == [t] + ts
  {
    TokensUnfold(s, parseColor);
  }
}
