/**
 * `exportASCII`: allocate a blank grid of `rows + marginBottom` by
 * `cols + marginRight`, draw every box and then every text, trim trailing
 * white space from each row, drop trailing empty rows and join with newlines.
 */
module Export {
  import opened JsString
  import opened Palette
  import opened WireGeometry
  import opened Raster

  /** The fields of `ExportState`; the optional margins default to 0 and the style to ASCII. */
  datatype Scene = Scene(
    rows: nat, cols: nat, boxes: seq<Box>, texts: seq<TextItem>,
    marginRight: nat, marginBottom: nat, style: Style)

  function Height(s: Scene): nat { s.rows + s.marginBottom }

  function Width(s: Scene): nat { s.cols + s.marginRight }

  /** Everything the boxes write to `(x, y)`, box after box. */
  function BoxesHits(boxes: seq<Box>, g: Glyphs, x: int, y: int): seq<char>
  {
    if boxes == [] then [] else BoxesHits(boxes[..|boxes| - 1], g, x, y) + BoxHits(boxes[|boxes| - 1], g, x, y)
  }

  /** Everything the texts write to `(x, y)`, text after text. */
  function TextsHits(texts: seq<TextItem>, x: int, y: int): seq<char>
  {
    if texts == [] then [] else TextsHits(texts[..|texts| - 1], x, y) + TextHits(texts[|texts| - 1], x, y)
  }

  /** What the exported grid holds at `(x, y)` before trimming. */
  function CellOf(s: Scene, x: int, y: int): char
  {
    var g := GetStyleChars(s.style);
    Stack(' ', BoxesHits(s.boxes, g, x, y) + TextsHits(s.texts, x, y), g)
  }

  /** Row `r` of the grid, `row.join('')`. */
  function Row(s: Scene, r: int): string
  {
    seq(Width(s), c => CellOf(s, c, r))
  }

  /** The `while (...) lines.pop()` loop: drops trailing empty lines. */
  function DropBlankTail(lines: seq<string>): (r: seq<string>)
    ensures r <= lines
    ensures r == [] || r[|r| - 1] != []
    ensures forall i :: |r| <= i < |lines| ==> lines[i] == []
  {
    if lines != [] && lines[|lines| - 1] == [] then DropBlankTail(lines[..|lines| - 1]) else lines
  }

  /** Every row of the grid with its trailing white space removed. */
  function TrimmedRows(s: Scene): seq<string>
  {
    seq(Height(s), r => TrimEnd(Row(s, r)))
  }

  function ExportLines(s: Scene): seq<string>
  {
    DropBlankTail(TrimmedRows(s))
  }

  /** The string `exportASCII` returns. */
  function ExportText(s: Scene): string
  {
    Join(ExportLines(s), "\n")
  }

  // ---------------------------------------------------------------------------
  // Layering

  lemma {:induction false} TextsHitsAppend(a: seq<TextItem>, b: seq<TextItem>, x: int, y: int)
    ensures TextsHits(a + b, x, y) == TextsHits(a, x, y) + TextsHits(b, x, y)
    decreases |b|
  {
    if b == [] {
      assert a + b == a;
    } else {
      var b' := b[..|b| - 1];
      assert (a + b)[..|a + b| - 1] == a + b';
      TextsHitsAppend(a, b', x, y);
    }
  }

  /** No text in `texts` covers `(x, y)`. */
  predicate NoTextCovers(texts: seq<TextItem>, x: int, y: int)
  {
    forall k :: 0 <= k < |texts| ==> !(y == texts[k].y && texts[k].x <= x < texts[k].x + |texts[k].value|)
  }

  lemma {:induction false} TextsMiss(texts: seq<TextItem>, x: int, y: int)
    requires NoTextCovers(texts, x, y)
    ensures TextsHits(texts, x, y) == []
    decreases |texts|
  {
    if texts != [] {
      TextsMiss(texts[..|texts| - 1], x, y);
    }
  }

  /**
   * All boxes are drawn before any text, and the last text that covers a cell
   * is composited last: its character lands on whatever the boxes and the
   * earlier texts left there.
   */
  lemma LastTextOnTop(s: Scene, j: nat, x: int, y: int)
    requires j < |s.texts|
    requires var t := s.texts[j]; y == t.y && t.x <= x < t.x + |t.value|
    requires NoTextCovers(s.texts[j + 1..], x, y)
    ensures var g := GetStyleChars(s.style);
      var below := Stack(Stack(' ', BoxesHits(s.boxes, g, x, y), g), TextsHits(s.texts[..j], x, y), g);
      CellOf(s, x, y) == Composite(below, s.texts[j].value[x - s.texts[j].x], g)
  {
    var g := GetStyleChars(s.style);
    var bh := BoxesHits(s.boxes, g, x, y);
    var before, t, after := s.texts[..j], s.texts[j], s.texts[j + 1..];
    var c := t.value[x - t.x];
    var th := TextsHits(before, x, y);
    assert TextsHits(s.texts, x, y) == th + [c] by {
      assert s.texts == before + [t] + after;
      TextsHitsAppend(before + [t], after, x, y);
      TextsHitsAppend(before, [t], x, y);
      TextsMiss(after, x, y);
      assert TextsHits([t], x, y) == TextHits(t, x, y) by {
        assert [t][..0] == [];
      }
      assert TextHits(t, x, y) == [c];
    }
    assert bh + (th + [c]) == (bh + th) + [c];
    StackSnoc(' ', bh + th, c, g);
    StackAppend(' ', bh, th, g);
  }

  /** Cells that no box outline and no text reach stay blank. */
  lemma {:induction false} UntouchedCellBlank(s: Scene, x: int, y: int)
    requires forall k :: 0 <= k < |s.boxes| ==> !OnPerimeter(x, y, s.boxes[k])
    requires NoTextCovers(s.texts, x, y)
    ensures CellOf(s, x, y) == ' '
  {
    var g := GetStyleChars(s.style);
    BoxesMiss(s.boxes, g, x, y);
    TextsMiss(s.texts, x, y);
  }

  lemma {:induction false} BoxesMiss(boxes: seq<Box>, g: Glyphs, x: int, y: int)
    requires forall k :: 0 <= k < |boxes| ==> !OnPerimeter(x, y, boxes[k])
    ensures BoxesHits(boxes, g, x, y) == []
    decreases |boxes|
  {
    if boxes != [] {
      BoxesMiss(boxes[..|boxes| - 1], g, x, y);
      BoxHitsOffPerimeter(boxes[|boxes| - 1], g, x, y);
    }
  }

  // ---------------------------------------------------------------------------
  // Shape of the output

  /**
   * The exported lines: at most `rows + marginBottom` of them, line `i` is row
   * `i` with its trailing white space removed, and the last line is not empty.
   */
  lemma ExportLinesShape(s: Scene)
    ensures var lines := ExportLines(s);
      && |lines| <= Height(s)
      && (forall i :: 0 <= i < |lines| ==> lines[i] == TrimEnd(Row(s, i)))
      && (lines == [] || lines[|lines| - 1] != [])
  {
    var lines := ExportLines(s);
    assert lines <= TrimmedRows(s);
    forall i | 0 <= i < |lines|
      ensures lines[i] == TrimEnd(Row(s, i))
    {
      assert lines[i] == TrimmedRows(s)[i];
    }
  }

  /**
   * Each exported line is its row trimmed: at most `cols + marginRight`
   * characters, never ending in white space.
   */
  lemma ExportLineAt(s: Scene, i: int)
    requires 0 <= i < |ExportLines(s)|
    ensures var line := ExportLines(s)[i];
      && line == TrimEnd(Row(s, i)) && |line| <= Width(s)
      && (line == [] || !IsSpace(line[|line| - 1]))
  {
    var row := Row(s, i);
    var line := TrimEnd(row);
    assert ExportLines(s)[i] == TrimmedRows(s)[i] == line;
    assert line <= row;
  }

  /** Only rows that were entirely white space are dropped from the bottom. */
  lemma ExportDropsOnlyBlankRows(s: Scene)
    ensures forall r :: |ExportLines(s)| <= r < Height(s) ==> AllSpace(Row(s, r))
  {
    var all := TrimmedRows(s);
    var lines := ExportLines(s);
    forall r | |lines| <= r < Height(s)
      ensures AllSpace(Row(s, r))
    {
      assert all[r] == [];
      TrimEmptyEnd(Row(s, r));
    }
  }

  /** `s.replace(/\s+$/g, '')` is empty exactly for an all-white-space string. */
  lemma {:induction false} TrimEmptyEnd(s: string)
    ensures TrimEnd(s) == [] <==> AllSpace(s)
    decreases |s|
  {
    if s != [] && IsSpace(s[|s| - 1]) {
      TrimEmptyEnd(s[..|s| - 1]);
      if AllSpace(s[..|s| - 1]) {
        forall i | 0 <= i < |s| ensures IsSpace(s[i]) {
          if i < |s| - 1 {
            assert s[i] == s[..|s| - 1][i];
          }
        }
      }
    }
  }

  // ---------------------------------------------------------------------------
  // The method

  /** The `for` loop of `exportASCII` over the boxes. */
  method DrawBoxes(grid: array2<char>, boxes: seq<Box>, g: Glyphs)
    requires IsPalette(g)
    modifies grid
    ensures forall r, c :: 0 <= r < grid.Length0 && 0 <= c < grid.Length1 ==>
      grid[r, c] == Stack(old(grid[r, c]), BoxesHits(boxes, g, c, r), g)
  {
    for i := 0 to |boxes|
      invariant forall r, c :: 0 <= r < grid.Length0 && 0 <= c < grid.Length1 ==>
        grid[r, c] == Stack(old(grid[r, c]), BoxesHits(boxes[..i], g, c, r), g)
    {
      label Before:
      DrawBox(grid, boxes[i], g);
      forall r, c | 0 <= r < grid.Length0 && 0 <= c < grid.Length1
        ensures grid[r, c] == Stack(old(grid[r, c]), BoxesHits(boxes[..i + 1], g, c, r), g)
      {
        assert boxes[..i + 1][..i] == boxes[..i];
        assert old@Before(grid[r, c]) == Stack(old(grid[r, c]), BoxesHits(boxes[..i], g, c, r), g);
        StackAppend(old(grid[r, c]), BoxesHits(boxes[..i], g, c, r), BoxHits(boxes[i], g, c, r), g);
      }
    }
    assert boxes[..|boxes|] == boxes;
  }

  /** The `for` loop of `exportASCII` over the texts. */
  method DrawTexts(grid: array2<char>, texts: seq<TextItem>, g: Glyphs)
    requires IsPalette(g)
    modifies grid
    ensures forall r, c :: 0 <= r < grid.Length0 && 0 <= c < grid.Length1 ==>
      grid[r, c] == Stack(old(grid[r, c]), TextsHits(texts, c, r), g)
  {
    for i := 0 to |texts|
      invariant forall r, c :: 0 <= r < grid.Length0 && 0 <= c < grid.Length1 ==>
        grid[r, c] == Stack(old(grid[r, c]), TextsHits(texts[..i], c, r), g)
    {
      label Before:
      DrawText(grid, texts[i], g);
      forall r, c | 0 <= r < grid.Length0 && 0 <= c < grid.Length1
        ensures grid[r, c] == Stack(old(grid[r, c]), TextsHits(texts[..i + 1], c, r), g)
      {
        assert texts[..i + 1][..i] == texts[..i];
        assert old@Before(grid[r, c]) == Stack(old(grid[r, c]), TextsHits(texts[..i], c, r), g);
        StackAppend(old(grid[r, c]), TextsHits(texts[..i], c, r), TextHits(texts[i], c, r), g);
      }
    }
    assert texts[..|texts|] == texts;
  }

  /** `exportASCII`, drawing into an in-place buffer. */
  method ExportASCII(s: Scene) returns (out: string)
    ensures out == ExportText(s)
  {
    var R := s.rows + s.marginBottom;
    var C := s.cols + s.marginRight;
    var grid := MakeGrid(R, C, ' ');
    var g := GetStyleChars(s.style);
    DrawBoxes(grid, s.boxes, g);
    label Boxed:
    DrawTexts(grid, s.texts, g);
    forall r, c | 0 <= r < R && 0 <= c < C
      ensures grid[r, c] == CellOf(s, c, r)
    {
      assert old@Boxed(grid[r, c]) == Stack(' ', BoxesHits(s.boxes, g, c, r), g);
      StackAppend(' ', BoxesHits(s.boxes, g, c, r), TextsHits(s.texts, c, r), g);
    }

    var lines := seq(R, r requires 0 <= r < R reads grid =>
      TrimEnd(seq(C, c requires 0 <= c < C reads grid => grid[r, c])));
    forall r | 0 <= r < R ensures lines[r] == TrimmedRows(s)[r] {
      assert seq(C, c requires 0 <= c < C reads grid => grid[r, c]) == Row(s, r);
    }
    assert lines == TrimmedRows(s);

    while |lines| > 0 && lines[|lines| - 1] == []
      invariant DropBlankTail(lines) == ExportLines(s)
    {
      lines := lines[..|lines| - 1];
    }
    out := Join(lines, "\n");
  }

  // ---------------------------------------------------------------------------
  // The self-tests of `runSelfTestsOnce`

  /** A scene holding one box and no text, in the default style and margins. */
  function OneBox(rows: nat, cols: nat, b: Box, texts: seq<TextItem>): Scene
  {
    Scene(rows, cols, [b], texts, 0, 0, Ascii)
  }

  lemma OneBoxCell(s: Scene, x: int, y: int)
    requires s == OneBox(3, 4, Box("b", 0, 0, 4, 3), [])
    requires 0 <= x < 4 && 0 <= y < 3
    ensures CellOf(s, x, y) == ["+--+", "|  |", "+--+"][y][x]
  {
    var g := GetStyleChars(s.style);
    assert s.boxes[..0] == [];
    assert BoxesHits(s.boxes, g, x, y) + TextsHits(s.texts, x, y) == BoxHits(s.boxes[0], g, x, y);
    BlankBoxShape(s.boxes[0], g, x, y);
  }

  /** A row whose every cell is known. */
  lemma RowIs(s: Scene, r: int, expected: string)
    requires |expected| == Width(s)
    requires forall c :: 0 <= c < |expected| ==> CellOf(s, c, r) == expected[c]
    ensures Row(s, r) == expected
  {
  }

  /** Rows that already end in ink are exported as they are. */
  lemma LinesAre(s: Scene, rows: seq<string>)
    requires |rows| == Height(s) && rows != []
    requires forall r :: 0 <= r < |rows| ==> Row(s, r) == rows[r] && rows[r] != [] && !IsSpace(rows[r][|rows[r]| - 1])
    ensures ExportLines(s) == rows
  {
    assert TrimmedRows(s) == rows;
  }

  lemma JoinThree(a: string, b: string, c: string)
    ensures Join([a, b, c], "\n") == a + "\n" + b + "\n" + c
  {
    assert [a, b, c][..2] == [a, b];
    assert [a, b][..1] == [a];
    assert Join([a], "\n") == a;
    assert Join([a, b], "\n") == a + "\n" + b;
    assert Join([a, b, c], "\n") == Join([a, b], "\n") + "\n" + c;
  }

  /** "simple box 4x3": a 4x3 box at the origin exports as three lines. */
  lemma SelfTestSimpleBoxLines()
    ensures ExportLines(OneBox(3, 4, Box("b", 0, 0, 4, 3), [])) == ["+--+", "|  |", "+--+"]
  {
    var s := OneBox(3, 4, Box("b", 0, 0, 4, 3), []);
    var g := GetStyleChars(Ascii);
    var rows := ["+--+", "|  |", "+--+"];
    forall x, y | 0 <= x < 4 && 0 <= y < 3 ensures CellOf(s, x, y) == rows[y][x] {
      OneBoxCell(s, x, y);
    }
    RowIs(s, 0, rows[0]);
    RowIs(s, 1, rows[1]);
    RowIs(s, 2, rows[2]);
    LinesAre(s, rows);
  }

  /** ... and as the exact string of the self-test. */
  lemma SelfTestSimpleBox()
    ensures ExportText(OneBox(3, 4, Box("b", 0, 0, 4, 3), [])) == "+--+\n|  |\n+--+"
  {
    SelfTestSimpleBoxLines();
    JoinThree("+--+", "|  |", "+--+");
  }

  /** "intersection becomes plus": `-` then `|` on a blank cell leaves `+`. */
  method SelfTestIntersection() returns (ch: char)
    ensures ch == '+'
  {
    var g2 := MakeGrid(3, 3, ' ');
    var chars := GetStyleChars(Ascii);
    PutChar(g2, 1, 1, '-', chars);
    PutChar(g2, 1, 1, '|', chars);
    ch := g2[1, 1];
  }

  /** "text overwrites border": `Hi` at (1, 0) on a 6x3 box replaces two `-` of the top edge. */
  lemma SelfTestTextOverBorder()
    ensures var s := OneBox(3, 6, Box("b", 0, 0, 6, 3), [TextItem("t", 1, 0, "Hi")]);
      ExportLines(s) == ["+Hi--+", "|    |", "+----+"]
  {
    var s := OneBox(3, 6, Box("b", 0, 0, 6, 3), [TextItem("t", 1, 0, "Hi")]);
    var rows := ["+Hi--+", "|    |", "+----+"];
    forall x, y | 0 <= x < 6 && 0 <= y < 3 ensures CellOf(s, x, y) == rows[y][x] {
      TextOverBoxCell(s, x, y);
    }
    RowIs(s, 0, rows[0]);
    RowIs(s, 1, rows[1]);
    RowIs(s, 2, rows[2]);
    LinesAre(s, rows);
  }

  /** ... so the first line of the export is `+Hi--+`. */
  lemma SelfTestTextOverBorderText()
    ensures ExportText(OneBox(3, 6, Box("b", 0, 0, 6, 3), [TextItem("t", 1, 0, "Hi")]))
      == "+Hi--+\n|    |\n+----+"
  {
    SelfTestTextOverBorder();
    JoinThree("+Hi--+", "|    |", "+----+");
  }

  lemma TextOverBoxCell(s: Scene, x: int, y: int)
    requires s == OneBox(3, 6, Box("b", 0, 0, 6, 3), [TextItem("t", 1, 0, "Hi")])
    requires 0 <= x < 6 && 0 <= y < 3
    ensures CellOf(s, x, y) == ["+Hi--+", "|    |", "+----+"][y][x]
  {
    var g := GetStyleChars(Ascii);
    var b := s.boxes[0];
    var t := s.texts[0];
    assert s.boxes[..0] == [] && s.texts[..0] == [];
    assert BoxesHits(s.boxes, g, x, y) == BoxHits(b, g, x, y);
    assert TextsHits(s.texts, x, y) == TextHits(t, x, y);
    BlankBoxShape(b, g, x, y);
    StackAppend(' ', BoxHits(b, g, x, y), TextHits(t, x, y), g);
    TextCell(BoxGlyphAt(b, g, x, y), t, g, x, y);
    HiOverBorder(x, y);
  }

  /** The glyph of the bordered cell, with `Hi` written over the top edge. */
  lemma HiOverBorder(x: int, y: int)
    requires 0 <= x < 6 && 0 <= y < 3
    ensures var g := GetStyleChars(Ascii);
      var border := BoxGlyphAt(Box("b", 0, 0, 6, 3), g, x, y);
      (if y == 0 && 1 <= x < 3 then Composite(border, "Hi"[x - 1], g) else border)
        == ["+Hi--+", "|    |", "+----+"][y][x]
  {
  }
}
