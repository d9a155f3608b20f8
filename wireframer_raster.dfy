/**
 * The ASCII Wireframer's character buffer and rasterisers: `makeGrid`,
 * `putChar`, `drawBoxASCII` and `drawTextASCII`.
 *
 * A rasteriser is a sequence of `putChar` calls. It is specified cell by cell:
 * for each loop of the rasteriser a function gives the characters that loop
 * writes to cell `(x, y)`, in call order (`EdgeRowHits`, ..., `BoxHits`,
 * `TextHits`), and the cell ends up as those characters composited, in order,
 * over what it held (`Stack`). Writes outside the grid are dropped.
 */
module Raster {
  import opened Palette
  import opened WireGeometry

  /** Compositing `chs`, in order, over a cell that held `init`. */
  function Stack(init: char, chs: seq<char>, g: Glyphs): char
    requires IsPalette(g)
  {
    if chs == [] then init else Composite(Stack(init, chs[..|chs| - 1], g), chs[|chs| - 1], g)
  }

  lemma StackSnoc(init: char, chs: seq<char>, c: char, g: Glyphs)
    requires IsPalette(g)
    ensures Stack(init, chs + [c], g) == Composite(Stack(init, chs, g), c, g)
  {
    assert (chs + [c])[..|chs|] == chs;
  }

  lemma StackOne(init: char, c: char, g: Glyphs)
    requires IsPalette(g)
    ensures Stack(init, [c], g) == Composite(init, c, g)
  {
    StackSnoc(init, [], c, g);
    assert [] + [c] == [c];
  }

  lemma StackTwo(init: char, a: char, b: char, g: Glyphs)
    requires IsPalette(g)
    ensures Stack(init, [a, b], g) == Composite(Composite(init, a, g), b, g)
  {
    StackSnoc(init, [a], b, g);
    assert [a] + [b] == [a, b];
    StackOne(init, a, g);
  }

  lemma StackThree(init: char, a: char, b: char, c: char, g: Glyphs)
    requires IsPalette(g)
    ensures Stack(init, [a, b, c], g) == Composite(Composite(Composite(init, a, g), b, g), c, g)
  {
    StackSnoc(init, [a, b], c, g);
    assert [a, b] + [c] == [a, b, c];
    StackTwo(init, a, b, g);
  }

  /** Writing one run of characters and then another is writing their concatenation. */
  lemma {:induction false} StackAppend(init: char, a: seq<char>, b: seq<char>, g: Glyphs)
    requires IsPalette(g)
    ensures Stack(init, a + b, g) == Stack(Stack(init, a, g), b, g)
    decreases |b|
  {
    if b == [] {
      assert a + b == a;
    } else {
      var b' := b[..|b| - 1];
      assert (a + b)[..|a + b| - 1] == a + b';
      StackAppend(init, a, b', g);
    }
  }

  /** A cell that receives at least one non-blank character is not blank afterwards. */
  lemma {:induction false} StackInks(init: char, chs: seq<char>, g: Glyphs)
    requires IsPalette(g) && chs != []
    requires ' ' !in chs
    ensures Stack(init, chs, g) != ' '
    decreases |chs|
  {
    var prev := chs[..|chs| - 1];
    assert chs == prev + [chs[|chs| - 1]];
    if prev != [] {
      StackInks(init, prev, g);
    }
  }

  // ---------------------------------------------------------------------------
  // What each loop of drawBoxASCII writes to a cell

  /**
   * The first loop, for `xi` in `lo .. hi-1`: `ch` at `(xi, y0)` then at `(xi, y1)`
   * (twice on the same cell when `y0 == y1`).
   */
  function EdgeRowHits(y0: int, y1: int, lo: int, hi: int, ch: char, x: int, y: int): seq<char>
  {
    if lo <= x < hi && (y == y0 || y == y1) then (if y0 == y1 then [ch, ch] else [ch]) else []
  }

  /** The second loop, for `yi` in `lo .. hi-1`: `ch` at `(x0, yi)` then at `(x1, yi)`. */
  function EdgeColumnHits(x0: int, x1: int, lo: int, hi: int, ch: char, x: int, y: int): seq<char>
  {
    if lo <= y < hi && (x == x0 || x == x1) then (if x0 == x1 then [ch, ch] else [ch]) else []
  }

  /** The four corner writes: `tl`, `tr`, `bl`, `br`, in that order. */
  function CornerHits(x0: int, y0: int, x1: int, y1: int, g: Glyphs, x: int, y: int): seq<char>
  {
    (if x == x0 && y == y0 then [g.tl] else [])
    + (if x == x1 && y == y0 then [g.tr] else [])
    + (if x == x0 && y == y1 then [g.bl] else [])
    + (if x == x1 && y == y1 then [g.br] else [])
  }

  /** The `h === 1` loop, for `xi` in `x0 .. hi-1`: `tl` at `x0`, `tr` at `x1`, `h` between. */
  function FlatRowHits(x0: int, x1: int, y0: int, hi: int, g: Glyphs, x: int, y: int): seq<char>
  {
    if y == y0 && x0 <= x < hi then [if x == x0 then g.tl else if x == x1 then g.tr else g.h] else []
  }

  /** The `w === 1` loop, for `yi` in `y0 .. hi-1`: `tl` at `y0`, `bl` at `y1`, `v` between. */
  function TallColumnHits(y0: int, y1: int, x0: int, hi: int, g: Glyphs, x: int, y: int): seq<char>
  {
    if x == x0 && y0 <= y < hi then [if y == y0 then g.tl else if y == y1 then g.bl else g.v] else []
  }

  /** The two edge loops and the corners of a box that is not 1x1. */
  function OutlineHits(b: Box, g: Glyphs, x: int, y: int): seq<char>
  {
    var x0, y0, x1, y1 := b.x, b.y, b.x + b.w - 1, b.y + b.h - 1;
    EdgeRowHits(y0, y1, x0 + 1, x1, g.h, x, y)
    + EdgeColumnHits(x0, x1, y0 + 1, y1, g.v, x, y)
    + CornerHits(x0, y0, x1, y1, g, x, y)
  }

  /** Every character `drawBoxASCII` writes to `(x, y)`, in call order. */
  function BoxHits(b: Box, g: Glyphs, x: int, y: int): seq<char>
  {
    var x0, y0, x1, y1 := b.x, b.y, b.x + b.w - 1, b.y + b.h - 1;
    if b.w <= 0 || b.h <= 0 then []
    else if b.w == 1 && b.h == 1 then (if x == x0 && y == y0 then [g.cross] else [])
    else
      OutlineHits(b, g, x, y)
      + (if b.h == 1 then FlatRowHits(x0, x1, y0, x1 + 1, g, x, y) else [])
      + (if b.w == 1 then TallColumnHits(y0, y1, x0, y1 + 1, g, x, y) else [])
  }

  /** A cell on the border of the closed rectangle `[x, x+w-1] x [y, y+h-1]`. */
  predicate OnPerimeter(x: int, y: int, b: Box)
  {
    && b.x <= x <= b.x + b.w - 1 && b.y <= y <= b.y + b.h - 1
    && (x == b.x || x == b.x + b.w - 1 || y == b.y || y == b.y + b.h - 1)
  }

  /** `drawBoxASCII` writes nothing for an empty box and nothing off the perimeter. */
  lemma BoxHitsOffPerimeter(b: Box, g: Glyphs, x: int, y: int)
    requires b.w <= 0 || b.h <= 0 || !OnPerimeter(x, y, b)
    ensures BoxHits(b, g, x, y) == []
  {
    if b.w >= 1 && b.h >= 1 && !(b.w == 1 && b.h == 1) {
      assert OutlineHits(b, g, x, y) == [];
    }
  }

  /** On a box that is not empty, every perimeter cell receives at least one character. */
  lemma BoxHitsOnPerimeter(b: Box, g: Glyphs, x: int, y: int)
    requires b.w >= 1 && b.h >= 1 && OnPerimeter(x, y, b)
    ensures BoxHits(b, g, x, y) != []
  {
    if !(b.w == 1 && b.h == 1) {
      var x0, y0, x1, y1 := b.x, b.y, b.x + b.w - 1, b.y + b.h - 1;
      var e1 := EdgeRowHits(y0, y1, x0 + 1, x1, g.h, x, y);
      var e2 := EdgeColumnHits(x0, x1, y0 + 1, y1, g.v, x, y);
      var e3 := CornerHits(x0, y0, x1, y1, g, x, y);
      assert |e1| + |e2| + |e3| > 0;
      assert |OutlineHits(b, g, x, y)| > 0;
    }
  }

  /** `drawBoxASCII` writes only glyphs of the palette: never a blank. */
  lemma BoxHitsAreGlyphs(b: Box, g: Glyphs, x: int, y: int)
    requires IsPalette(g)
    ensures ' ' !in BoxHits(b, g, x, y)
  {
    if b.w >= 1 && b.h >= 1 && !(b.w == 1 && b.h == 1) {
      var x0, y0, x1, y1 := b.x, b.y, b.x + b.w - 1, b.y + b.h - 1;
      assert ' ' !in OutlineHits(b, g, x, y);
      assert ' ' !in FlatRowHits(x0, x1, y0, x1 + 1, g, x, y);
      assert ' ' !in TallColumnHits(y0, y1, x0, y1 + 1, g, x, y);
    }
  }

  /** Cells off the perimeter, and every cell of an empty box, are left as they were. */
  lemma BoxLeavesOffPerimeter(init: char, b: Box, g: Glyphs, x: int, y: int)
    requires IsPalette(g) && (b.w <= 0 || b.h <= 0 || !OnPerimeter(x, y, b))
    ensures Stack(init, BoxHits(b, g, x, y), g) == init
  {
    BoxHitsOffPerimeter(b, g, x, y);
  }

  /** Whatever the grid held, every perimeter cell of a drawn box is inked. */
  lemma BoxInksPerimeter(init: char, b: Box, g: Glyphs, x: int, y: int)
    requires IsPalette(g) && b.w >= 1 && b.h >= 1 && OnPerimeter(x, y, b)
    ensures Stack(init, BoxHits(b, g, x, y), g) != ' '
  {
    BoxHitsOnPerimeter(b, g, x, y);
    BoxHitsAreGlyphs(b, g, x, y);
    StackInks(init, BoxHits(b, g, x, y), g);
  }

  /** A 1x1 box puts the junction on its one cell. */
  lemma UnitBoxIsJunction(init: char, b: Box, g: Glyphs)
    requires IsPalette(g) && b.w == 1 && b.h == 1
    ensures Stack(init, BoxHits(b, g, b.x, b.y), g) == g.cross
  {
    StackOne(init, g.cross, g);
  }

  /** What `drawBoxASCII` leaves in each cell of a blank grid, for a box at least 2x2. */
  function BoxGlyphAt(b: Box, g: Glyphs, x: int, y: int): char
  {
    var x0, y0, x1, y1 := b.x, b.y, b.x + b.w - 1, b.y + b.h - 1;
    if x == x0 && y == y0 then g.tl
    else if x == x1 && y == y0 then g.tr
    else if x == x0 && y == y1 then g.bl
    else if x == x1 && y == y1 then g.br
    else if x0 < x < x1 && (y == y0 || y == y1) then g.h
    else if y0 < y < y1 && (x == x0 || x == x1) then g.v
    else ' '
  }

  /**
   * On a blank grid, a box of at least 2x2 shows its four corner glyphs, `h`
   * along the top and bottom, `v` down the sides, and leaves everything else blank.
   */
  lemma BlankBoxShape(b: Box, g: Glyphs, x: int, y: int)
    requires IsPalette(g) && b.w >= 2 && b.h >= 2
    ensures Stack(' ', BoxHits(b, g, x, y), g) == BoxGlyphAt(b, g, x, y)
  {
    var hs := BoxHits(b, g, x, y);
    if OnPerimeter(x, y, b) {
      assert hs == [BoxGlyphAt(b, g, x, y)];
      StackOne(' ', BoxGlyphAt(b, g, x, y), g);
    } else {
      assert hs == [];
    }
  }

  /**
   * As written, a box one row tall gets `h` twice on each interior cell from the
   * edge loop, so its interior shows the junction; its ends show `tl` and `tr`.
   */
  lemma FlatBoxAsWritten(b: Box, g: Glyphs, x: int)
    requires IsPalette(g) && b.h == 1 && b.w >= 2 && b.x <= x <= b.x + b.w - 1
    ensures Stack(' ', BoxHits(b, g, x, b.y), g)
      == if x == b.x then g.tl else if x == b.x + b.w - 1 then g.tr else g.cross
  {
    var hs := BoxHits(b, g, x, b.y);
    if x == b.x {
      assert hs == [g.tl, g.bl, g.tl];
      StackThree(' ', g.tl, g.bl, g.tl, g);
    } else if x == b.x + b.w - 1 {
      assert hs == [g.tr, g.br, g.tr];
      StackThree(' ', g.tr, g.br, g.tr, g);
    } else {
      assert hs == [g.h, g.h, g.h];
      StackThree(' ', g.h, g.h, g.h, g);
    }
  }

  /**
   * As written, a box one column wide gets `v` twice on each interior cell, so
   * its interior shows the junction; its ends show `tl` and `bl`.
   */
  lemma TallBoxAsWritten(b: Box, g: Glyphs, y: int)
    requires IsPalette(g) && b.w == 1 && b.h >= 2 && b.y <= y <= b.y + b.h - 1
    ensures Stack(' ', BoxHits(b, g, b.x, y), g)
      == if y == b.y then g.tl else if y == b.y + b.h - 1 then g.bl else g.cross
  {
    var hs := BoxHits(b, g, b.x, y);
    if y == b.y {
      assert hs == [g.tl, g.tr, g.tl];
      StackThree(' ', g.tl, g.tr, g.tl, g);
    } else if y == b.y + b.h - 1 {
      assert hs == [g.bl, g.br, g.bl];
      StackThree(' ', g.bl, g.br, g.bl, g);
    } else {
      assert hs == [g.v, g.v, g.v];
      StackThree(' ', g.v, g.v, g.v, g);
    }
  }

  // ---------------------------------------------------------------------------
  // What drawTextASCII writes to a cell

  /** The first `k` iterations of `drawTextASCII`: `value[i]` at `(x + i, y)`. */
  function TextHitsUpTo(t: TextItem, k: nat, x: int, y: int): seq<char>
    requires k <= |t.value|
  {
    if y == t.y && t.x <= x < t.x + k then [t.value[x - t.x]] else []
  }

  /** Every character `drawTextASCII` writes to `(x, y)`: at most one. */
  function TextHits(t: TextItem, x: int, y: int): seq<char>
  {
    TextHitsUpTo(t, |t.value|, x, y)
  }

  /**
   * `drawTextASCII` touches only row `y`, columns `x .. x+len-1`, compositing
   * `value[i]` into column `x + i`; an empty value changes nothing.
   */
  lemma TextCell(init: char, t: TextItem, g: Glyphs, x: int, y: int)
    requires IsPalette(g)
    ensures Stack(init, TextHits(t, x, y), g)
      == if y == t.y && t.x <= x < t.x + |t.value| then Composite(init, t.value[x - t.x], g) else init
  {
    if y == t.y && t.x <= x < t.x + |t.value| {
      StackOne(init, t.value[x - t.x], g);
    }
  }

  // ---------------------------------------------------------------------------
  // One loop iteration, cell by cell

  lemma EdgeRowStep(init: char, y0: int, y1: int, lo: int, xi: int, ch: char, g: Glyphs, x: int, y: int)
    requires IsPalette(g) && lo <= xi
    ensures var s0 := Stack(init, EdgeRowHits(y0, y1, lo, xi, ch, x, y), g);
            var s1 := if x == xi && y == y0 then Composite(s0, ch, g) else s0;
            Stack(init, EdgeRowHits(y0, y1, lo, xi + 1, ch, x, y), g)
              == if x == xi && y == y1 then Composite(s1, ch, g) else s1
  {
    if x == xi && (y == y0 || y == y1) {
      if y0 == y1 {
        StackTwo(init, ch, ch, g);
      } else {
        StackOne(init, ch, g);
      }
    }
  }

  lemma EdgeColumnStep(init: char, x0: int, x1: int, lo: int, yi: int, ch: char, g: Glyphs, x: int, y: int)
    requires IsPalette(g) && lo <= yi
    ensures var s0 := Stack(init, EdgeColumnHits(x0, x1, lo, yi, ch, x, y), g);
            var s1 := if x == x0 && y == yi then Composite(s0, ch, g) else s0;
            Stack(init, EdgeColumnHits(x0, x1, lo, yi + 1, ch, x, y), g)
              == if x == x1 && y == yi then Composite(s1, ch, g) else s1
  {
    if y == yi && (x == x0 || x == x1) {
      if x0 == x1 {
        StackTwo(init, ch, ch, g);
      } else {
        StackOne(init, ch, g);
      }
    }
  }

  lemma FlatRowStep(init: char, x0: int, x1: int, y0: int, xi: int, g: Glyphs, x: int, y: int)
    requires IsPalette(g) && x0 <= xi
    ensures Stack(init, FlatRowHits(x0, x1, y0, xi + 1, g, x, y), g)
      == if x == xi && y == y0
         then Composite(Stack(init, FlatRowHits(x0, x1, y0, xi, g, x, y), g),
                        if xi == x0 then g.tl else if xi == x1 then g.tr else g.h, g)
         else Stack(init, FlatRowHits(x0, x1, y0, xi, g, x, y), g)
  {
    if x == xi && y == y0 {
      StackOne(init, if xi == x0 then g.tl else if xi == x1 then g.tr else g.h, g);
    }
  }

  lemma TallColumnStep(init: char, y0: int, y1: int, x0: int, yi: int, g: Glyphs, x: int, y: int)
    requires IsPalette(g) && y0 <= yi
    ensures Stack(init, TallColumnHits(y0, y1, x0, yi + 1, g, x, y), g)
      == if x == x0 && y == yi
         then Composite(Stack(init, TallColumnHits(y0, y1, x0, yi, g, x, y), g),
                        if yi == y0 then g.tl else if yi == y1 then g.bl else g.v, g)
         else Stack(init, TallColumnHits(y0, y1, x0, yi, g, x, y), g)
  {
    if x == x0 && y == yi {
      StackOne(init, if yi == y0 then g.tl else if yi == y1 then g.bl else g.v, g);
    }
  }

  lemma CornersStep(init: char, x0: int, y0: int, x1: int, y1: int, g: Glyphs, x: int, y: int)
    requires IsPalette(g)
    ensures var s1 := if x == x0 && y == y0 then Composite(init, g.tl, g) else init;
            var s2 := if x == x1 && y == y0 then Composite(s1, g.tr, g) else s1;
            var s3 := if x == x0 && y == y1 then Composite(s2, g.bl, g) else s2;
            Stack(init, CornerHits(x0, y0, x1, y1, g, x, y), g)
              == if x == x1 && y == y1 then Composite(s3, g.br, g) else s3
  {
    var a := if x == x0 && y == y0 then [g.tl] else [];
    var b := if x == x1 && y == y0 then [g.tr] else [];
    var c := if x == x0 && y == y1 then [g.bl] else [];
    var d := if x == x1 && y == y1 then [g.br] else [];
    StackAppend(init, a + b + c, d, g);
    StackAppend(init, a + b, c, g);
    StackAppend(init, a, b, g);
    if a != [] { StackOne(init, g.tl, g); }
    if b != [] { StackOne(Stack(init, a, g), g.tr, g); }
    if c != [] { StackOne(Stack(init, a + b, g), g.bl, g); }
    if d != [] { StackOne(Stack(init, a + b + c, g), g.br, g); }
  }

  lemma TextStep(init: char, t: TextItem, i: nat, g: Glyphs, x: int, y: int)
    requires IsPalette(g) && i < |t.value|
    ensures Stack(init, TextHitsUpTo(t, i + 1, x, y), g)
      == if x == t.x + i && y == t.y
         then Composite(Stack(init, TextHitsUpTo(t, i, x, y), g), t.value[i], g)
         else Stack(init, TextHitsUpTo(t, i, x, y), g)
  {
    if x == t.x + i && y == t.y {
      StackOne(init, t.value[i], g);
    }
  }

  // ---------------------------------------------------------------------------
  // The in-place grid operations

  /** `makeGrid(rows, cols, fill)`: a fresh `rows x cols` buffer, every cell `fill`. */
  method MakeGrid(rows: nat, cols: nat, fill: char) returns (grid: array2<char>)
    ensures fresh(grid) && grid.Length0 == rows && grid.Length1 == cols
    ensures forall r, c :: 0 <= r < rows && 0 <= c < cols ==> grid[r, c] == fill
  {
    grid := new char[rows, cols];
    for r := 0 to rows
      invariant forall r', c :: 0 <= r' < r && 0 <= c < cols ==> grid[r', c] == fill
    {
      for c := 0 to cols
        invariant forall r', c' :: 0 <= r' < r && 0 <= c' < cols ==> grid[r', c'] == fill
        invariant forall c' :: 0 <= c' < c ==> grid[r, c'] == fill
      {
        grid[r, c] := fill;
      }
    }
  }

  /**
   * `putChar`: a write outside the grid is dropped; otherwise only cell
   * `(x, y)` changes, to the composite of its old character and `ch`.
   */
  method PutChar(grid: array2<char>, x: int, y: int, ch: char, g: Glyphs)
    requires IsPalette(g)
    modifies grid
    ensures forall r, c :: 0 <= r < grid.Length0 && 0 <= c < grid.Length1 ==>
      grid[r, c] == if r == y && c == x then Composite(old(grid[r, c]), ch, g) else old(grid[r, c])
  {
    if y < 0 || y >= grid.Length0 {
      return;
    }
    if x < 0 || x >= grid.Length1 {
      return;
    }
    var cur := grid[y, x];
    grid[y, x] := Composite(cur, ch, g);
  }

  /** The first loop of `drawBoxASCII`. */
  method DrawEdgeRows(grid: array2<char>, y0: int, y1: int, lo: int, hi: int, ch: char, g: Glyphs)
    requires IsPalette(g)
    modifies grid
    ensures forall r, c :: 0 <= r < grid.Length0 && 0 <= c < grid.Length1 ==>
      grid[r, c] == Stack(old(grid[r, c]), EdgeRowHits(y0, y1, lo, hi, ch, c, r), g)
  {
    var xi := lo;
    while xi < hi
      invariant lo <= xi && (xi <= hi || xi == lo)
      invariant forall r, c :: 0 <= r < grid.Length0 && 0 <= c < grid.Length1 ==>
        grid[r, c] == Stack(old(grid[r, c]), EdgeRowHits(y0, y1, lo, xi, ch, c, r), g)
    {
      PutChar(grid, xi, y0, ch, g);
      PutChar(grid, xi, y1, ch, g);
      forall r, c | 0 <= r < grid.Length0 && 0 <= c < grid.Length1
        ensures grid[r, c] == Stack(old(grid[r, c]), EdgeRowHits(y0, y1, lo, xi + 1, ch, c, r), g)
      {
        EdgeRowStep(old(grid[r, c]), y0, y1, lo, xi, ch, g, c, r);
      }
      xi := xi + 1;
    }
  }

  /** The second loop of `drawBoxASCII`. */
  method DrawEdgeColumns(grid: array2<char>, x0: int, x1: int, lo: int, hi: int, ch: char, g: Glyphs)
    requires IsPalette(g)
    modifies grid
    ensures forall r, c :: 0 <= r < grid.Length0 && 0 <= c < grid.Length1 ==>
      grid[r, c] == Stack(old(grid[r, c]), EdgeColumnHits(x0, x1, lo, hi, ch, c, r), g)
  {
    var yi := lo;
    while yi < hi
      invariant lo <= yi && (yi <= hi || yi == lo)
      invariant forall r, c :: 0 <= r < grid.Length0 && 0 <= c < grid.Length1 ==>
        grid[r, c] == Stack(old(grid[r, c]), EdgeColumnHits(x0, x1, lo, yi, ch, c, r), g)
    {
      PutChar(grid, x0, yi, ch, g);
      PutChar(grid, x1, yi, ch, g);
      forall r, c | 0 <= r < grid.Length0 && 0 <= c < grid.Length1
        ensures grid[r, c] == Stack(old(grid[r, c]), EdgeColumnHits(x0, x1, lo, yi + 1, ch, c, r), g)
      {
        EdgeColumnStep(old(grid[r, c]), x0, x1, lo, yi, ch, g, c, r);
      }
      yi := yi + 1;
    }
  }

  /** The four corner writes of `drawBoxASCII`. */
  method DrawCorners(grid: array2<char>, x0: int, y0: int, x1: int, y1: int, g: Glyphs)
    requires IsPalette(g)
    modifies grid
    ensures forall r, c :: 0 <= r < grid.Length0 && 0 <= c < grid.Length1 ==>
      grid[r, c] == Stack(old(grid[r, c]), CornerHits(x0, y0, x1, y1, g, c, r), g)
  {
    PutChar(grid, x0, y0, g.tl, g);
    PutChar(grid, x1, y0, g.tr, g);
    PutChar(grid, x0, y1, g.bl, g);
    PutChar(grid, x1, y1, g.br, g);
    forall r, c | 0 <= r < grid.Length0 && 0 <= c < grid.Length1
      ensures grid[r, c] == Stack(old(grid[r, c]), CornerHits(x0, y0, x1, y1, g, c, r), g)
    {
      CornersStep(old(grid[r, c]), x0, y0, x1, y1, g, c, r);
    }
  }

  /** The `h === 1` loop of `drawBoxASCII`. */
  method DrawFlatRow(grid: array2<char>, x0: int, x1: int, y0: int, g: Glyphs)
    requires IsPalette(g)
    modifies grid
    ensures forall r, c :: 0 <= r < grid.Length0 && 0 <= c < grid.Length1 ==>
      grid[r, c] == Stack(old(grid[r, c]), FlatRowHits(x0, x1, y0, x1 + 1, g, c, r), g)
  {
    var xi := x0;
    while xi <= x1
      invariant x0 <= xi && (xi <= x1 + 1 || xi == x0)
      invariant forall r, c :: 0 <= r < grid.Length0 && 0 <= c < grid.Length1 ==>
        grid[r, c] == Stack(old(grid[r, c]), FlatRowHits(x0, x1, y0, xi, g, c, r), g)
    {
      PutChar(grid, xi, y0, if xi == x0 then g.tl else if xi == x1 then g.tr else g.h, g);
      forall r, c | 0 <= r < grid.Length0 && 0 <= c < grid.Length1
        ensures grid[r, c] == Stack(old(grid[r, c]), FlatRowHits(x0, x1, y0, xi + 1, g, c, r), g)
      {
        FlatRowStep(old(grid[r, c]), x0, x1, y0, xi, g, c, r);
      }
      xi := xi + 1;
    }
  }

  /** The `w === 1` loop of `drawBoxASCII`. */
  method DrawTallColumn(grid: array2<char>, y0: int, y1: int, x0: int, g: Glyphs)
    requires IsPalette(g)
    modifies grid
    ensures forall r, c :: 0 <= r < grid.Length0 && 0 <= c < grid.Length1 ==>
      grid[r, c] == Stack(old(grid[r, c]), TallColumnHits(y0, y1, x0, y1 + 1, g, c, r), g)
  {
    var yi := y0;
    while yi <= y1
      invariant y0 <= yi && (yi <= y1 + 1 || yi == y0)
      invariant forall r, c :: 0 <= r < grid.Length0 && 0 <= c < grid.Length1 ==>
        grid[r, c] == Stack(old(grid[r, c]), TallColumnHits(y0, y1, x0, yi, g, c, r), g)
    {
      PutChar(grid, x0, yi, if yi == y0 then g.tl else if yi == y1 then g.bl else g.v, g);
      forall r, c | 0 <= r < grid.Length0 && 0 <= c < grid.Length1
        ensures grid[r, c] == Stack(old(grid[r, c]), TallColumnHits(y0, y1, x0, yi + 1, g, c, r), g)
      {
        TallColumnStep(old(grid[r, c]), y0, y1, x0, yi, g, c, r);
      }
      yi := yi + 1;
    }
  }

  /** The two edge loops and the four corners of a box that is not 1x1, in that order. */
  method DrawOutline(grid: array2<char>, box: Box, g: Glyphs)
    requires IsPalette(g)
    modifies grid
    ensures forall r, c :: 0 <= r < grid.Length0 && 0 <= c < grid.Length1 ==>
      grid[r, c] == Stack(old(grid[r, c]), OutlineHits(box, g, c, r), g)
  {
    var x0 := box.x;
    var y0 := box.y;
    var x1 := box.x + box.w - 1;
    var y1 := box.y + box.h - 1;
    DrawEdgeRows(grid, y0, y1, x0 + 1, x1, g.h, g);
    label Rows:
    DrawEdgeColumns(grid, x0, x1, y0 + 1, y1, g.v, g);
    label Columns:
    DrawCorners(grid, x0, y0, x1, y1, g);
    forall r, c | 0 <= r < grid.Length0 && 0 <= c < grid.Length1
      ensures grid[r, c] == Stack(old(grid[r, c]), OutlineHits(box, g, c, r), g)
    {
      var e1 := EdgeRowHits(y0, y1, x0 + 1, x1, g.h, c, r);
      var e2 := EdgeColumnHits(x0, x1, y0 + 1, y1, g.v, c, r);
      var e3 := CornerHits(x0, y0, x1, y1, g, c, r);
      assert old@Rows(grid[r, c]) == Stack(old(grid[r, c]), e1, g);
      assert old@Columns(grid[r, c]) == Stack(old@Rows(grid[r, c]), e2, g);
      StackAppend(old(grid[r, c]), e1, e2, g);
      StackAppend(old(grid[r, c]), e1 + e2, e3, g);
    }
  }

  /** `drawBoxASCII`: every cell ends as the composite of what the box writes to it. */
  method DrawBox(grid: array2<char>, box: Box, g: Glyphs)
    requires IsPalette(g)
    modifies grid
    ensures forall r, c :: 0 <= r < grid.Length0 && 0 <= c < grid.Length1 ==>
      grid[r, c] == Stack(old(grid[r, c]), BoxHits(box, g, c, r), g)
  {
    if box.w <= 0 || box.h <= 0 {
      return;
    }
    var x0 := box.x;
    var y0 := box.y;
    var x1 := box.x + box.w - 1;
    var y1 := box.y + box.h - 1;

    if box.w == 1 && box.h == 1 {
      PutChar(grid, x0, y0, g.cross, g);
      forall r, c | 0 <= r < grid.Length0 && 0 <= c < grid.Length1
        ensures grid[r, c] == Stack(old(grid[r, c]), BoxHits(box, g, c, r), g)
      {
        StackOne(old(grid[r, c]), g.cross, g);
      }
      return;
    }

    DrawOutline(grid, box, g);
    label Outline:
    if box.h == 1 {
      DrawFlatRow(grid, x0, x1, y0, g);
      forall r, c | 0 <= r < grid.Length0 && 0 <= c < grid.Length1
        ensures grid[r, c] == Stack(old(grid[r, c]), BoxHits(box, g, c, r), g)
      {
        var o := OutlineHits(box, g, c, r);
        var f := FlatRowHits(x0, x1, y0, x1 + 1, g, c, r);
        assert old@Outline(grid[r, c]) == Stack(old(grid[r, c]), o, g);
        assert grid[r, c] == Stack(old@Outline(grid[r, c]), f, g);
        StackAppend(old(grid[r, c]), o, f, g);
        assert o + f + [] == o + f;
        assert BoxHits(box, g, c, r) == o + f;
      }
    } else if box.w == 1 {
      DrawTallColumn(grid, y0, y1, x0, g);
      forall r, c | 0 <= r < grid.Length0 && 0 <= c < grid.Length1
        ensures grid[r, c] == Stack(old(grid[r, c]), BoxHits(box, g, c, r), g)
      {
        var o := OutlineHits(box, g, c, r);
        var t := TallColumnHits(y0, y1, x0, y1 + 1, g, c, r);
        assert old@Outline(grid[r, c]) == Stack(old(grid[r, c]), o, g);
        assert grid[r, c] == Stack(old@Outline(grid[r, c]), t, g);
        StackAppend(old(grid[r, c]), o, t, g);
        assert o + [] + t == o + t;
        assert BoxHits(box, g, c, r) == o + t;
      }
    } else {
      forall r, c | 0 <= r < grid.Length0 && 0 <= c < grid.Length1
        ensures BoxHits(box, g, c, r) == OutlineHits(box, g, c, r)
      {
        assert OutlineHits(box, g, c, r) + [] + [] == OutlineHits(box, g, c, r);
      }
    }
  }

  /** `drawTextASCII`: every cell ends as the composite of what the text writes to it. */
  method DrawText(grid: array2<char>, text: TextItem, g: Glyphs)
    requires IsPalette(g)
    modifies grid
    ensures forall r, c :: 0 <= r < grid.Length0 && 0 <= c < grid.Length1 ==>
      grid[r, c] == Stack(old(grid[r, c]), TextHits(text, c, r), g)
  {
    for i := 0 to |text.value|
      invariant forall r, c :: 0 <= r < grid.Length0 && 0 <= c < grid.Length1 ==>
        grid[r, c] == Stack(old(grid[r, c]), TextHitsUpTo(text, i, c, r), g)
    {
      PutChar(grid, text.x + i, text.y, text.value[i], g);
      forall r, c | 0 <= r < grid.Length0 && 0 <= c < grid.Length1
        ensures grid[r, c] == Stack(old(grid[r, c]), TextHitsUpTo(text, i + 1, c, r), g)
      {
        TextStep(old(grid[r, c]), text, i, g, c, r);
      }
    }
  }
}
