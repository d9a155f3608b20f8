/**
 * The ASCII Wireframer's glyph palette and its per-cell compositor.
 *
 * `Composite(cur, ch, g)` is the decision `putChar` takes for a cell inside the
 * grid: which character the cell holds after `ch` is written over `cur`.
 */
module Palette {

  datatype Style = Ascii | Unicode

  /** The seven glyphs of a style: two lines, four corners and the junction. */
  datatype Glyphs = Glyphs(h: char, v: char, tl: char, tr: char, bl: char, br: char, cross: char)

  /** `getStyleChars`. */
  function GetStyleChars(style: Style): (g: Glyphs)
    ensures g.h != g.v && g.cross != g.h && g.cross != g.v
    ensures ' ' !in {g.h, g.v, g.tl, g.tr, g.bl, g.br, g.cross}
    ensures style == Ascii ==> g.h == '-' && g.v == '|' && g.cross == '+'
    ensures style == Ascii ==> g.tl == g.tr == g.bl == g.br == g.cross
    ensures style == Unicode ==> |{g.h, g.v, g.tl, g.tr, g.bl, g.br, g.cross}| == 7
  {
    if style == Unicode then
      Glyphs('─', '│', '┌', '┐', '└', '┘', '┼')
    else
      Glyphs('-', '|', '+', '+', '+', '+', '+')
  }

  /** The glyph sets `putChar` is ever given. */
  predicate IsPalette(g: Glyphs)
  {
    g == GetStyleChars(Ascii) || g == GetStyleChars(Unicode)
  }

  predicate IsLine(c: char, g: Glyphs)
  {
    c == g.h || c == g.v
  }

  predicate IsCorner(c: char, g: Glyphs)
  {
    c == g.tl || c == g.tr || c == g.bl || c == g.br
  }

  /** Anything that is not blank and not a glyph of the palette. */
  predicate IsText(c: char, g: Glyphs)
  {
    !(c == ' ' || IsLine(c, g) || IsCorner(c, g) || c == g.cross)
  }

  /**
   * The compositing rule of `putChar` for an in-bounds cell holding `cur` when
   * `ch` is written: a blank cell takes anything; the junction is sticky; two
   * lines make a junction; a corner beats lines and text (the incoming corner
   * wins over an existing one); text beats blanks, lines and older text; a blank
   * or line written over text leaves the text.
   */
  function Composite(cur: char, ch: char, g: Glyphs): (r: char)
    requires IsPalette(g)
    ensures r == cur || r == ch || r == g.cross
    ensures cur == ' ' ==> r == ch
    ensures (cur == g.cross || ch == g.cross) ==> r == g.cross
    ensures IsLine(cur, g) && IsLine(ch, g) ==> r == g.cross
    ensures cur != ' ' ==> r != ' '
    ensures ch == ' ' ==> r == cur
    ensures IsCorner(ch, g) && cur != g.cross ==> r == ch
    ensures IsCorner(cur, g) && IsLine(ch, g) ==> r == cur
    ensures IsText(ch, g) && (IsCorner(cur, g) || cur == g.cross) ==> r == cur
    ensures IsText(ch, g) && !IsCorner(cur, g) && cur != g.cross ==> r == ch
    ensures IsLine(ch, g) && IsText(cur, g) ==> r == cur
  {
    if cur == ' ' then ch
    else if ch == g.cross || cur == g.cross then g.cross
    else if IsLine(cur, g) && IsLine(ch, g) then g.cross
    else if IsCorner(ch, g) || IsCorner(cur, g) then (if IsCorner(ch, g) then ch else cur)
    else if IsText(ch, g) then ch
    else cur
  }
}
