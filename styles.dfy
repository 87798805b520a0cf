/**
 * Terminal text styles (the `ansi_term::Style` value) and the field-wise
 * combination of two styles used when several configured styles apply to the
 * same file.
 */
module Styles {
  import opened Common

  /** `ansi_term::Colour`. */
  datatype Colour =
    | Black | Red | Green | Yellow | Blue | Purple | Cyan | White
    | Fixed(index: Byte)
    | Rgb(r: Byte, g: Byte, b: Byte)

  datatype Style = Style(
    foreground: Option<Colour>,
    background: Option<Colour>,
    bold: bool,
    dimmed: bool,
    italic: bool,
    underline: bool,
    blink: bool,
    reverse: bool,
    hidden: bool,
    strikethrough: bool)

  /** `Style::default()`: no colour and no attribute. */
  const Plain: Style := Style(None, None, false, false, false, false, false, false, false, false)

  /** Every boolean attribute of `a` is also set in `b`. */
  predicate AttributesWithin(a: Style, b: Style) {
    && (a.bold ==> b.bold) && (a.dimmed ==> b.dimmed) && (a.italic ==> b.italic)
    && (a.underline ==> b.underline) && (a.blink ==> b.blink) && (a.reverse ==> b.reverse)
    && (a.hidden ==> b.hidden) && (a.strikethrough ==> b.strikethrough)
  }

  /**
   * `combine(old, new)`, with `prev` for `old` and `next` for `new`: the
   * colours of `next` where it has them, else those of `prev`; each attribute
   * is set when either style sets it.
   */
  function Combine(prev: Style, next: Style): (r: Style)
    ensures r.foreground == (if next.foreground.Some? then next.foreground else prev.foreground)
    ensures r.background == (if next.background.Some? then next.background else prev.background)
    ensures AttributesWithin(prev, r) && AttributesWithin(next, r)
    ensures r.bold ==> prev.bold || next.bold
    ensures r.dimmed ==> prev.dimmed || next.dimmed
    ensures r.italic ==> prev.italic || next.italic
    ensures r.underline ==> prev.underline || next.underline
    ensures r.blink ==> prev.blink || next.blink
    ensures r.reverse ==> prev.reverse || next.reverse
    ensures r.hidden ==> prev.hidden || next.hidden
    ensures r.strikethrough ==> prev.strikethrough || next.strikethrough
  {
    Style(
      next.foreground.Or(prev.foreground),
      next.background.Or(prev.background),
      next.bold || prev.bold,
      next.dimmed || prev.dimmed,
      next.italic || prev.italic,
      next.underline || prev.underline,
      next.blink || prev.blink,
      next.reverse || prev.reverse,
      next.hidden || prev.hidden,
      next.strikethrough || prev.strikethrough)
  }

  /** `combine_opt`: an absent style on either side leaves the other unchanged. */
  function CombineOpt(prev: Option<Style>, next: Option<Style>): (r: Option<Style>)
    ensures next.None? ==> r == prev
    ensures prev.None? ==> r == next
    ensures prev.Some? && next.Some? ==> r == Some(Combine(prev.value, next.value))
  {
    match (prev, next)
    case (Some(a), Some(b)) => Some(Combine(a, b))
    case (a, None) => a
    case (None, b) => b
  }

  lemma CombineIdempotent(s: Style)
    ensures Combine(s, s) == s
  {
  }

  lemma CombinePlainIdentity(s: Style)
    ensures Combine(Plain, s) == s && Combine(s, Plain) == s
  {
  }

  lemma CombineAssociative(a: Style, b: Style, c: Style)
    ensures Combine(Combine(a, b), c) == Combine(a, Combine(b, c))
  {
  }
}
