# watzon.tech core, modelled in Dafny

This project models the computational core of the watzon.tech site:

- **ASCII Wireframer.** A character-grid diagram editor. Both copies share the same engine:
  - `src/app/experiments/ascii-wireframer/page.tsx`;
  - `src/components/experiments/AsciiWireframer.tsx`.

  The engine has these parts:
  - the glyph palette;
  - the per-cell compositor `putChar`;
  - the box and text rasterisers, which write a 2-D character buffer in place;
  - the exporter `exportASCII`;
  - the geometry helpers `clamp`, `rectFromCells` and `resizeBox`;
  - the editor's state machine. It covers hit-testing, the draw-box, move, resize and marquee drags, shift-toggle selection, arrow-key nudges, delete, text-edit commit and cancel, and the toolbar and sliders.
- **Reddit comment threads** (`reddit.ts`):
  - `transformRedditComments`, the recursive comment filter;
  - `buildCommentTree`, which takes the ancestor chain of a target comment, keeps its last `maxComments` comments and re-emits them with depths.
- **RSS feed generation** (`rss.ts`): `escapeXml`, `stripHtml`, the word-boundary `truncateText`, and `generateRSSFeed`, including the `<item>` assembly and the RSS 2.0 `<guid>`/`isPermaLink` rule.
- **Image proxy URLs** (`imageProxy.ts`): `getProxiedImageUrl` and `getProxiedImageUrls`.
- **Plain truncation**: `truncateText` of `markdown.ts`.

## Files and modules

| file | module | what it holds |
|---|---|---|
| `js_array.dfy` | `JsArray` | `Option`, and JavaScript's `filter`, `map`, `findIndex` and `find` on sequences |
| `js_string.dfy` | `JsString` | JavaScript's whitespace, `trim`/`trimEnd`, global `replace` of a literal, `includes`, `substring`, `indexOf`/`lastIndexOf` and `join` |
| `wireframer_geometry.dfy` | `WireGeometry` | cells, boxes, texts, `clamp`, `rectFromCells`, `resizeBox` |
| `wireframer_palette.dfy` | `Palette` | `getStyleChars` and the `putChar` compositing rule as a function on one cell |
| `wireframer_raster.dfy` | `Raster` | `makeGrid`, `putChar`, `drawBoxASCII` and `drawTextASCII` as methods on an `array2<char>`, each specified cell by cell through the sequence of glyphs written to that cell |
| `wireframer_export.dfy` | `Export` | `exportASCII` as a method; the reference definition it meets; the self-tests |
| `wireframer_editor_ops.dfy` | `EditorOps` | the value-level pieces of the editor handlers: hit-test, toggle, drags, nudges, removal, marquee, commit |
| `wireframer_editor.dfy` | `Editor` | the editor as a class `Wireframer` whose fields are the component's state, one method per handler |
| `reddit.dfy` | `Reddit` | comment transform and `buildCommentTree` |
| `rss.dfy` | `Rss` | the RSS helpers and `generateRSSFeed` |
| `image_proxy.dfy` | `ImageProxy` | `encodeURIComponent`, entity decoding, `getProxiedImageUrl(s)` |
| `markdown_truncate.dfy` | `MarkdownTruncate` | `truncateText` of `markdown.ts` |

### How the grid is specified

- A grid cell's final value is `Stack(init, writes, g)`: the compositor `Composite` folded over the glyphs written to that cell, in write order.
- Each rasteriser method ensures, for every cell, `grid[r, c] == Stack(old(grid[r, c]), <hits of that cell>, g)`.
- `Export.CellOf` applies this to all boxes, then all texts, on a blank grid. `Export.ExportText` is the reference text of a scene.
- `Export.ExportASCII` ensures its output equals `ExportText`.

### The editor

- Each React handler is one atomic transition of the `Editor.Wireframer` object. Its fields are `tool, rows, cols, style, boxes, texts, drag, selected, editing`.
- Every handler keeps `Valid()`:
  - boxes have non-negative origin and positive size;
  - texts have non-negative origin;
  - an open drag's snapshots are well formed;
  - the grid is within the sliders' range.
- Each handler states its whole new state, in terms of the value-level functions of `EditorOps`. Their properties are proved as lemmas there.

## Model

Line numbers of the wireframer cite `src/app/experiments/ascii-wireframer/page.tsx`. `src/components/experiments/AsciiWireframer.tsx` holds the same code 9 lines earlier for the engine and 61 lines earlier for the handlers.

| member | source | states |
|---|---|---|
| WireGeometry.Clamp | src/app/experiments/ascii-wireframer/page.tsx:78 | `max(lo, min(hi, n))`: in range when `lo <= hi`, `n` itself when already in range, `lo` below, `hi` above, and `lo` when the range is empty |
| WireGeometry.RectFromCells | src/app/experiments/ascii-wireframer/page.tsx:105-111 | the rectangle has `w, h >= 1`, holds both cells, and each of its edges passes through one of the two cells, whatever the drag direction |
| WireGeometry.ResizeBox | src/app/experiments/ascii-wireframer/page.tsx:231-258 | keeps the id and the corner opposite the handle; yields `w, h >= 1`; stays in the grid when the origin box was; and puts the dragged corner on the pointer's cell wherever the handle may reach |
| Palette.GetStyleChars | src/app/experiments/ascii-wireframer/page.tsx:82-103 | the ASCII palette is `- \| +` with all four corners equal to the cross; the Unicode palette has seven distinct glyphs; no glyph is blank, and `h`, `v` and cross are distinct |
| Palette.Composite | src/app/experiments/ascii-wireframer/page.tsx:127-158 | the result is the old glyph, the new one or the cross; onto blank the new glyph lands; cross is sticky; line onto line gives cross in either order; a blank write changes nothing and a non-blank cell never becomes blank; a corner wins over a line; text never overwrites a corner or cross, and overwrites anything else, while a line never overwrites text |
| Raster.StackSnoc | src/app/experiments/ascii-wireframer/page.tsx:127-158 | one more write to a cell composites onto the cell's value so far |
| Raster.StackOne | src/app/experiments/ascii-wireframer/page.tsx:127-158 | a single write is one `putChar` |
| Raster.StackTwo | src/app/experiments/ascii-wireframer/page.tsx:283-286 | two writes composite in order |
| Raster.StackThree | src/app/experiments/ascii-wireframer/page.tsx:174-187 | three writes composite in order |
| Raster.StackAppend | src/app/experiments/ascii-wireframer/page.tsx:217-218 | writing two runs one after the other is stacking the second run on the first run's result |
| Raster.StackInks | src/app/experiments/ascii-wireframer/page.tsx:127-158 | a non-empty run of non-blank writes never leaves a cell blank |
| Raster.BoxHitsOffPerimeter | src/app/experiments/ascii-wireframer/page.tsx:160-201 | an empty box (`w <= 0` or `h <= 0`) and any cell off a box's perimeter receive no write |
| Raster.BoxHitsOnPerimeter | src/app/experiments/ascii-wireframer/page.tsx:160-201 | every perimeter cell of a non-empty box receives at least one write |
| Raster.BoxHitsAreGlyphs | src/app/experiments/ascii-wireframer/page.tsx:160-201 | a box writes only palette glyphs, never a blank |
| Raster.BoxLeavesOffPerimeter | src/app/experiments/ascii-wireframer/page.tsx:160-201 | drawing a box leaves every cell off its perimeter unchanged, and an empty box changes nothing |
| Raster.BoxInksPerimeter | src/app/experiments/ascii-wireframer/page.tsx:160-201 | after drawing a box no perimeter cell is blank |
| Raster.UnitBoxIsJunction | src/app/experiments/ascii-wireframer/page.tsx:169-172 | a 1x1 box leaves the cross at its cell |
| Raster.BlankBoxShape | src/app/experiments/ascii-wireframer/page.tsx:174-187 | on a blank grid a box with `w, h >= 2` leaves the four corner glyphs at its corners, `h` along the top and bottom, `v` down the sides, and its inside blank |
| Raster.FlatBoxAsWritten | src/app/experiments/ascii-wireframer/page.tsx:174-194 | on a blank grid a box of height 1 leaves `tl` and `tr` at its ends and the cross in between, because the edge loop writes `h` twice to each interior cell |
| Raster.TallBoxAsWritten | src/app/experiments/ascii-wireframer/page.tsx:179-200 | on a blank grid a box of width 1 leaves `tl` and `bl` at its ends and the cross in between, because the side loop writes `v` twice to each interior cell |
| Raster.TextCell | src/app/experiments/ascii-wireframer/page.tsx:203-209 | a text writes only row `y`, columns `x..x+len-1`, with `value[i]` composited onto column `x+i`; an empty text writes nothing |
| Raster.EdgeRowStep | src/app/experiments/ascii-wireframer/page.tsx:174-177 | one iteration of the top/bottom edge loop writes `h` at `(xi, y0)` and then at `(xi, y1)` |
| Raster.EdgeColumnStep | src/app/experiments/ascii-wireframer/page.tsx:179-182 | one iteration of the side loop writes `v` at `(x0, yi)` and then at `(x1, yi)` |
| Raster.FlatRowStep | src/app/experiments/ascii-wireframer/page.tsx:189-194 | one iteration of the `h === 1` loop writes `tl`, `tr` or `h` at `(xi, y0)` |
| Raster.TallColumnStep | src/app/experiments/ascii-wireframer/page.tsx:195-200 | one iteration of the `w === 1` loop writes `tl`, `bl` or `v` at `(x0, yi)` |
| Raster.CornersStep | src/app/experiments/ascii-wireframer/page.tsx:184-187 | the four corner writes happen in the order `tl`, `tr`, `bl`, `br` |
| Raster.TextStep | src/app/experiments/ascii-wireframer/page.tsx:206-208 | one iteration of the text loop writes `value[i]` at `(x+i, y)` |
| Raster.MakeGrid | src/app/experiments/ascii-wireframer/page.tsx:117-125 | a fresh `rows x cols` grid with every cell equal to the fill |
| Raster.PutChar | src/app/experiments/ascii-wireframer/page.tsx:127-158 | changes at most cell `(x, y)`, to `Composite(old, ch)`; a write outside the grid leaves the whole grid unchanged |
| Raster.DrawEdgeRows | src/app/experiments/ascii-wireframer/page.tsx:174-177 | each cell ends as its old value with the top/bottom edge writes stacked on it |
| Raster.DrawEdgeColumns | src/app/experiments/ascii-wireframer/page.tsx:179-182 | each cell ends as its old value with the side writes stacked on it |
| Raster.DrawCorners | src/app/experiments/ascii-wireframer/page.tsx:184-187 | each cell ends as its old value with the corner writes stacked on it |
| Raster.DrawFlatRow | src/app/experiments/ascii-wireframer/page.tsx:189-194 | each cell ends as its old value with the `h === 1` loop's writes stacked on it |
| Raster.DrawTallColumn | src/app/experiments/ascii-wireframer/page.tsx:195-200 | each cell ends as its old value with the `w === 1` loop's writes stacked on it |
| Raster.DrawOutline | src/app/experiments/ascii-wireframer/page.tsx:174-187 | each cell ends as its old value with the edge, side and corner writes stacked on it |
| Raster.DrawBox | src/app/experiments/ascii-wireframer/page.tsx:160-201 | `drawBoxASCII`: every cell ends as its old value with exactly that box's writes stacked on it, in the source's order |
| Raster.DrawText | src/app/experiments/ascii-wireframer/page.tsx:203-209 | `drawTextASCII`: every cell ends as its old value with exactly that text's writes stacked on it |
| Export.DropBlankTail | src/app/experiments/ascii-wireframer/page.tsx:226 | popping trailing empty lines leaves a prefix whose last line is non-empty, and only empty lines were dropped |
| Export.TextsHitsAppend | src/app/experiments/ascii-wireframer/page.tsx:218 | the writes of two text lists to a cell are the first list's followed by the second's |
| Export.TextsMiss | src/app/experiments/ascii-wireframer/page.tsx:203-209 | texts that do not cover a cell write nothing to it |
| Export.LastTextOnTop | src/app/experiments/ascii-wireframer/page.tsx:217-218 | all boxes are drawn before any text: a cell covered by text `j` and no later text is that text's character composited onto the boxes and earlier texts |
| Export.UntouchedCellBlank | src/app/experiments/ascii-wireframer/page.tsx:211-218 | a cell on no box's perimeter and under no text exports blank |
| Export.BoxesMiss | src/app/experiments/ascii-wireframer/page.tsx:217 | boxes whose perimeters avoid a cell write nothing to it |
| Export.ExportLinesShape | src/app/experiments/ascii-wireframer/page.tsx:220-226 | at most `rows + marginBottom` lines, line `i` is row `i` with its trailing whitespace trimmed, and the last line is non-empty |
| Export.ExportLineAt | src/app/experiments/ascii-wireframer/page.tsx:220-224 | each exported line is at most `cols + marginRight` long and does not end in whitespace |
| Export.ExportDropsOnlyBlankRows | src/app/experiments/ascii-wireframer/page.tsx:226 | every dropped row was all whitespace |
| Export.TrimEmptyEnd | src/app/experiments/ascii-wireframer/page.tsx:222-223 | a row trims to `''` exactly when it is all whitespace |
| Export.DrawBoxes | src/app/experiments/ascii-wireframer/page.tsx:217 | the box loop leaves each cell as its old value with every box's writes stacked on it, in list order |
| Export.DrawTexts | src/app/experiments/ascii-wireframer/page.tsx:218 | the text loop leaves each cell as its old value with every text's writes stacked on it, in list order |
| Export.ExportASCII | src/app/experiments/ascii-wireframer/page.tsx:211-229 | `exportASCII` returns exactly the reference export of the scene |
| Export.OneBoxCell | src/app/experiments/ascii-wireframer/page.tsx:274-280 | each cell of the 4x3 self-test box is the expected glyph |
| Export.RowIs | src/app/experiments/ascii-wireframer/page.tsx:220-221 | a row is the string of its cells |
| Export.LinesAre | src/app/experiments/ascii-wireframer/page.tsx:220-226 | rows without trailing whitespace are exported as they are |
| Export.JoinThree | src/app/experiments/ascii-wireframer/page.tsx:228 | joining three lines puts a `\n` between each pair |
| Export.SelfTestSimpleBoxLines | src/app/experiments/ascii-wireframer/page.tsx:274-280 | the 4x3 box at the origin exports the lines `+--+`, `\|  \|`, `+--+` |
| Export.SelfTestSimpleBox | src/app/experiments/ascii-wireframer/page.tsx:274-280 | the 4x3 box exports exactly `"+--+\n\|  \|\n+--+"` |
| Export.SelfTestIntersection | src/app/experiments/ascii-wireframer/page.tsx:282-286 | `-` then `\|` at one cell of a blank grid gives `+` |
| Export.SelfTestTextOverBorder | src/app/experiments/ascii-wireframer/page.tsx:288-294 | `"Hi"` at `(1,0)` on the 6x3 box exports the lines `+Hi--+`, `\|    \|`, `+----+` |
| Export.SelfTestTextOverBorderText | src/app/experiments/ascii-wireframer/page.tsx:288-294 | so the first line of that export is `+Hi--+` |
| Export.TextOverBoxCell | src/app/experiments/ascii-wireframer/page.tsx:288-294 | each cell of that self-test scene is the expected glyph |
| Export.HiOverBorder | src/app/experiments/ascii-wireframer/page.tsx:288-294 | the letters of `"Hi"` overwrite the `-` border they land on |
| EditorOps.BoardCell | src/app/experiments/ascii-wireframer/page.tsx:370-379 | the cell of a pointer event is clamped into the grid and is the raw cell when that is already inside |
| EditorOps.LastTextHit | src/app/experiments/ascii-wireframer/page.tsx:382-388 | the scan from the end finds the last text covering the cell, over columns `[x, x + max(1, len))`, or none |
| EditorOps.LastBoxHit | src/app/experiments/ascii-wireframer/page.tsx:389-394 | the scan from the end finds the last box containing the cell, or none |
| EditorOps.HitTestSpec | src/app/experiments/ascii-wireframer/page.tsx:381-396 | `hitTest` returns a text exactly when some text covers the cell, and then the topmost one; otherwise the topmost box containing the cell; and null exactly when nothing covers it |
| EditorOps.ToggleFlips | src/app/experiments/ascii-wireframer/page.tsx:494-497 | shift-clicking flips the hit's membership and keeps every other selection |
| EditorOps.ToggleTwice | src/app/experiments/ascii-wireframer/page.tsx:494-497 | shift-clicking the same unselected shape twice restores the selection |
| EditorOps.IdsOfSpec | src/app/experiments/ascii-wireframer/page.tsx:668-669 | the id set of one kind holds exactly the ids selected with that kind |
| EditorOps.MoveStartSpec | src/app/experiments/ascii-wireframer/page.tsx:402-409 | a move drag starts at the cell and snapshots exactly the selected boxes and texts |
| EditorOps.DragBoxesSpec | src/app/experiments/ascii-wireframer/page.tsx:520-530 | a dragged box is its snapshot plus `(dx, dy)`, clamped to `[0, cols-w] x [0, rows-h]`; a box without a snapshot is unchanged; ids and sizes are kept |
| EditorOps.DragBoxesAbsolute | src/app/experiments/ascii-wireframer/page.tsx:516-530 | positions come from the snapshot, not an accumulated sum: dragging twice is dragging once by the second offset |
| EditorOps.DragTextsSpec | src/app/experiments/ascii-wireframer/page.tsx:532-542 | a dragged text is its snapshot plus `(dx, dy)` clamped to `[0, cols-1] x [0, rows-1]`; a text without a snapshot is unchanged; ids and values are kept |
| EditorOps.DragTextsAbsolute | src/app/experiments/ascii-wireframer/page.tsx:532-542 | texts, too, move from the snapshot and not by accumulation |
| EditorOps.NudgeBoxesSpec | src/app/experiments/ascii-wireframer/page.tsx:702-711 | an arrow key moves each selected box by `(dx, dy)` with the same clamp, keeps it in the grid, and leaves unselected boxes unchanged |
| EditorOps.NudgeBoxesUndo | src/app/experiments/ascii-wireframer/page.tsx:702-711 | a nudge that needs no clamping is undone by the opposite nudge |
| EditorOps.NudgeTextsSpec | src/app/experiments/ascii-wireframer/page.tsx:713-722 | an arrow key moves each selected text by `(dx, dy)` clamped into the grid and leaves unselected texts unchanged |
| EditorOps.ReplaceBoxSpec | src/app/experiments/ascii-wireframer/page.tsx:549 | resizing replaces exactly the boxes with the resized id and keeps the order and the others |
| EditorOps.RemoveBoxesSpec | src/app/experiments/ascii-wireframer/page.tsx:670 | delete keeps exactly the boxes whose id is not selected, in their order |
| EditorOps.RemoveTextsSpec | src/app/experiments/ascii-wireframer/page.tsx:671 | delete keeps exactly the texts whose id is not selected, in their order |
| EditorOps.RemoveKeepsOk | src/app/experiments/ascii-wireframer/page.tsx:666-673 | removal keeps the shapes well formed, and an empty id set removes nothing |
| EditorOps.BoxSelections | src/app/experiments/ascii-wireframer/page.tsx:624 | one box selection per box, in order |
| EditorOps.TextSelections | src/app/experiments/ascii-wireframer/page.tsx:625 | one text selection per text, in order |
| EditorOps.MarqueeBoxes | src/app/experiments/ascii-wireframer/page.tsx:606-613 | keeps exactly the boxes whose closed rectangle meets the marquee |
| EditorOps.MarqueeTexts | src/app/experiments/ascii-wireframer/page.tsx:614-621 | keeps exactly the texts whose one-row span (length, minimum 1) meets the marquee |
| EditorOps.BoxSelectionsMembers | src/app/experiments/ascii-wireframer/page.tsx:624 | the box selections name exactly the given boxes |
| EditorOps.TextSelectionsMembers | src/app/experiments/ascii-wireframer/page.tsx:625 | the text selections name exactly the given texts |
| EditorOps.MarqueeSpec | src/app/experiments/ascii-wireframer/page.tsx:604-627 | the marquee selects exactly the overlapping boxes and texts, with all boxes before all texts |
| EditorOps.DrawnBox | src/app/experiments/ascii-wireframer/page.tsx:560-569 | the drawn box has the new id and positive size, and when both cells are in the grid it equals `rectFromCells(start, current)` and fits the grid |
| EditorOps.StripLineBreaks | src/app/experiments/ascii-wireframer/page.tsx:431 | the committed value holds no `\r` or `\n` and keeps every other character of the edited value; a value without line breaks is unchanged |
| EditorOps.StripLineBreaksAppend | src/app/experiments/ascii-wireframer/page.tsx:431 | stripping works piecewise over concatenation, so the kept characters keep their order and multiplicity |
| EditorOps.UpsertSpec | src/app/experiments/ascii-wireframer/page.tsx:437-445 | a new id is appended; an existing id is replaced in place at its first index, with every other entry kept |
| EditorOps.UpsertIdempotent | src/app/experiments/ascii-wireframer/page.tsx:437-445 | committing the same entry twice is committing it once |
| EditorOps.TextEditAtSpec | src/app/experiments/ascii-wireframer/page.tsx:480-490 | with the text tool, clicking empty board opens a new blank edit there, and clicking a text opens it for editing with its position and value |
| EditorOps.CommitEditKeepsOk | src/app/experiments/ascii-wireframer/page.tsx:429-448 | a committed edit at a valid position keeps the texts well formed |
| EditorOps.UpsertKeepsOk | src/app/experiments/ascii-wireframer/page.tsx:437-445 | inserting or replacing a well-formed text keeps the texts well formed |
| EditorOps.CommitEditSpec | src/app/experiments/ascii-wireframer/page.tsx:429-448 | a whitespace-only value discards the edit and touches nothing; otherwise the stripped text is stored, only it is added or replaced, at most one entry is added, and it becomes the sole selection |
| Editor.FindHit | src/app/experiments/ascii-wireframer/page.tsx:381-396 | the two backward loops of `hitTest` return exactly the hit-test function's answer |
| Editor.SliderValue | src/app/experiments/ascii-wireframer/page.tsx:833-845 | a slider value is in range; a parsed non-zero in-range value is kept; an unparsable or zero value gives the default |
| Editor.Wireframer.constructor | src/app/experiments/ascii-wireframer/page.tsx:327-342 | the initial state: box tool, 28 x 64, ASCII, the three boxes and three labels, nothing selected, dragged or edited |
| Editor.Wireframer.CommitTextEdit | src/app/experiments/ascii-wireframer/page.tsx:429-448 | `commitTextEdit`: texts and selection become the committed edit's, the edit box closes, and nothing else changes |
| Editor.Wireframer.StoreCommit | src/app/experiments/ascii-wireframer/page.tsx:437-447 | the committed texts and selection are stored and the edit box closes |
| Editor.Wireframer.CancelTextEdit | src/app/experiments/ascii-wireframer/page.tsx:450-452 | `cancelTextEdit` closes the edit box and changes nothing else |
| Editor.Wireframer.EditInput | src/app/experiments/ascii-wireframer/page.tsx:986-991 | typing replaces the open edit's value and changes nothing else |
| Editor.Wireframer.PointerDown | src/app/experiments/ascii-wireframer/page.tsx:466-510 | commits any open edit, then: the box tool clears the selection and starts drawing; the text tool opens the hit text or a new one; the select tool toggles the hit with shift, selects it and starts a move without shift, and starts a marquee on empty board |
| Editor.Wireframer.PressHandle | src/app/experiments/ascii-wireframer/page.tsx:411-422 | a resize handle, shown only for a single selected box under the select tool, starts a resize drag of that box |
| Editor.Wireframer.PointerMove | src/app/experiments/ascii-wireframer/page.tsx:512-555 | no drag or the same cell: nothing changes; a move drag re-places the snapshots by `(cell - start)`; a resize drag replaces the box by `resizeBox` of its origin; every drag tracks the current cell |
| Editor.Wireframer.PointerUp | src/app/experiments/ascii-wireframer/page.tsx:557-635 | ends the drag: draw-box appends the drawn box and selects it alone; a move that went anywhere re-places the snapshots; a marquee selects what it meets; a resize applies the final resize |
| Editor.Wireframer.EndDrag | src/app/experiments/ascii-wireframer/page.tsx:559-632 | the shapes and selection after a drag ends, case by case |
| Editor.Wireframer.AddDrawnBox | src/app/experiments/ascii-wireframer/page.tsx:560-571 | the drawn box is appended and becomes the sole selection |
| Editor.Wireframer.ApplyMove | src/app/experiments/ascii-wireframer/page.tsx:577-600 | the boxes and texts of a move take their snapshot-based positions |
| Editor.Wireframer.ApplyBoxDrag | src/app/experiments/ascii-wireframer/page.tsx:518-530 | the boxes take their snapshot-based positions |
| Editor.Wireframer.ApplyTextDrag | src/app/experiments/ascii-wireframer/page.tsx:532-542 | the texts take their snapshot-based positions |
| Editor.Wireframer.ApplyResize | src/app/experiments/ascii-wireframer/page.tsx:549 | the resized box replaces the box with its id |
| Editor.Wireframer.RemoveSelected | src/app/experiments/ascii-wireframer/page.tsx:666-673 | an empty selection changes nothing; otherwise exactly the selected ids of each kind are deleted and the selection is cleared |
| Editor.Wireframer.Nudge | src/app/experiments/ascii-wireframer/page.tsx:698-723 | the selected boxes and texts move by `(dx, dy)` with their clamps |
| Editor.Wireframer.KeyDown | src/app/experiments/ascii-wireframer/page.tsx:675-745 | while editing, Enter commits, Escape cancels and other keys do nothing; otherwise Backspace/Delete removes a non-empty selection, and an arrow moves it by 1, or 5 with shift; any other key changes nothing |
| Editor.Wireframer.SetTool | src/app/experiments/ascii-wireframer/page.tsx:776-786 | the toolbar sets the tool and nothing else |
| Editor.Wireframer.SetStyle | src/app/experiments/ascii-wireframer/page.tsx:794 | the style switch sets the style and nothing else |
| Editor.Wireframer.SetRows | src/app/experiments/ascii-wireframer/page.tsx:833 | the rows slider sets `rows` to the slider value in `[8, 200]`, default 28, and nothing else |
| Editor.Wireframer.SetCols | src/app/experiments/ascii-wireframer/page.tsx:845 | the cols slider sets `cols` to the slider value in `[16, 400]`, default 64, and nothing else |
| Reddit.TransformEach | src/app/experiments/redditshot/lib/services/reddit.ts:205 | one comment per raw entry, pointwise |
| Reddit.TransformCommentsSpec | src/app/experiments/redditshot/lib/services/reddit.ts:202-206 | the transform keeps exactly the `t1`, non-stickied entries, in their order, and transforms each |
| Reddit.TransformEachAppend | src/app/experiments/redditshot/lib/services/reddit.ts:205 | mapping distributes over concatenation |
| Reddit.TransformCommentsAppend | src/app/experiments/redditshot/lib/services/reddit.ts:202-206 | the transform of a concatenation is the concatenation of the transforms, so the order is kept |
| Reddit.TransformCommentFields | src/app/experiments/redditshot/lib/services/reddit.ts:208-222 | the fields are copied, replies are empty without a listing, and otherwise at most as many as the listing's children |
| Reddit.WithAppend | src/app/experiments/redditshot/lib/services/reddit.ts:88-100 | filling the maps from two runs of entries is filling them from the first run and then the second |
| Reddit.LookupComment | src/app/experiments/redditshot/lib/services/reddit.ts:90-105 | with unique ids, the comment map holds exactly the ids of the forest, each mapped to its comment |
| Reddit.LookupParent | src/app/experiments/redditshot/lib/services/reddit.ts:91-117 | with unique ids, the parent map holds exactly the non-top-level comments, each mapped to its parent |
| Reddit.NoParentYet | src/app/experiments/redditshot/lib/services/reddit.ts:91-93 | an id not yet seen has no parent entry |
| Reddit.SameIdSameEntry | src/app/experiments/redditshot/lib/services/reddit.ts:90 | with unique ids, two positions in the forest with the same id are the same position |
| Reddit.EntriesAppendMember | src/app/experiments/redditshot/lib/services/reddit.ts:89-99 | the pre-order walk of a list is the walk of its front followed by the last comment and its replies |
| Reddit.TopLevelPresent | src/app/experiments/redditshot/lib/services/reddit.ts:89-90 | every top-level comment is visited with the current ancestors |
| Reddit.EntryShape | src/app/experiments/redditshot/lib/services/reddit.ts:88-99 | each visited comment's ancestors extend the starting ancestors, and a comment at the top level is one of the list |
| Reddit.RepliesPresent | src/app/experiments/redditshot/lib/services/reddit.ts:96-98 | the replies of every visited comment are visited with it as their parent |
| Reddit.ParentPresent | src/app/experiments/redditshot/lib/services/reddit.ts:91-98 | the parent of every nested comment is visited, and the comment is one of its replies |
| Reddit.AncestorsPresent | src/app/experiments/redditshot/lib/services/reddit.ts:88-99 | every ancestor on a comment's path is visited, each is a reply of the one before it, and the first is top level |
| Reddit.Kept | src/app/experiments/redditshot/lib/services/reddit.ts:130 | `slice(-maxComments)` keeps `min(maxComments, length)` comments, and the whole chain when the limit is infinite or 0 |
| Reddit.Emit | src/app/experiments/redditshot/lib/services/reddit.ts:144-147 | one emitted comment per chain comment |
| Reddit.EmitAt | src/app/experiments/redditshot/lib/services/reddit.ts:144-147 | the i-th emitted comment is the chain's i-th with depth `base + i` and every other field copied |
| Reddit.ThreadPathIff | src/app/experiments/redditshot/lib/services/reddit.ts:104-109 | a thread path exists exactly when the target id occurs somewhere in the reply forest |
| Reddit.ThreadPathFound | src/app/experiments/redditshot/lib/services/reddit.ts:105-124 | the thread path is the root-to-target path of a comment with the target id |
| Reddit.ThreadPathChain | src/app/experiments/redditshot/lib/services/reddit.ts:111-124 | the path starts at a top-level comment, ends at the target, and each comment is a reply of the one before |
| Reddit.PathFactsHold | src/app/experiments/redditshot/lib/services/reddit.ts:111-124 | with unique ids the path has distinct ids, and a reply of a path comment is on the path only as the next comment |
| Reddit.PathIdsDistinct | src/app/experiments/redditshot/lib/services/reddit.ts:111-124 | with unique ids no two comments of the path share an id |
| Reddit.PathRepliesNext | src/app/experiments/redditshot/lib/services/reddit.ts:111-124 | with unique ids a reply of a path comment whose id is on the path is the next comment of the path |
| Reddit.LinkedIff | src/app/experiments/redditshot/lib/services/reddit.ts:111-124 | the recursive and the index form of a reply chain agree |
| Reddit.LinkedSuffix | src/app/experiments/redditshot/lib/services/reddit.ts:130 | a suffix of a reply chain is a reply chain |
| Reddit.TailShape | src/app/experiments/redditshot/lib/services/reddit.ts:130 | the kept tail keeps the path's facts and still ends at the target |
| Reddit.OnChain | src/app/experiments/redditshot/lib/services/reddit.ts:142 | a reply whose id is in the target set is the next comment of the chain |
| Reddit.ParentChain | src/app/experiments/redditshot/lib/services/reddit.ts:115-124 | along the path, the parent map points each comment at the one before it, and the first has no parent |
| Reddit.IdSetSnoc | src/app/experiments/redditshot/lib/services/reddit.ts:135 | the id set of a longer prefix adds one id |
| Reddit.NotYetOnChain | src/app/experiments/redditshot/lib/services/reddit.ts:138-139 | with distinct ids the next chain comment has not been visited yet |
| Reddit.BuildCommentMaps | src/app/experiments/redditshot/lib/services/reddit.ts:88-100 | the recursive fill sets each comment's id to it and each non-top-level id to its parent, in pre-order |
| Reddit.WalkToRoot | src/app/experiments/redditshot/lib/services/reddit.ts:112-124 | the `while` loop with `unshift` builds exactly the root-to-target path |
| Reddit.Visit | src/app/experiments/redditshot/lib/services/reddit.ts:137-171 | a comment off the kept chain is marked visited and emits nothing; a chain comment emits itself and the rest of the chain with consecutive depths and reports the target found |
| Reddit.LinkAt | src/app/experiments/redditshot/lib/services/reddit.ts:160-166 | the next chain comment is a reply of the current one |
| Reddit.VisitAll | src/app/experiments/redditshot/lib/services/reddit.ts:150-157 | visiting the target's replies emits nothing and marks no chain comment |
| Reddit.Descend | src/app/experiments/redditshot/lib/services/reddit.ts:159-167 | the reply loop reaches the next chain comment, emits the rest of the chain and stops |
| Reddit.BuildCommentTree | src/app/experiments/redditshot/lib/services/reddit.ts:81-178 | target absent: no comments and depth 0; otherwise `maxDepth` is the full path length and the comments are the kept tail of the path with depths `0, 1, ...` |
| Reddit.ExtractThread | src/app/experiments/redditshot/lib/services/reddit.ts:129-177 | slicing the tail and walking it from its first comment emits exactly the tail with consecutive depths |
| Reddit.EmitTail | src/app/experiments/redditshot/lib/services/reddit.ts:130-147 | the output ends with the target, is no longer than the path, and is the path's last comments in order with depth `i` |
| Reddit.EmitDistinct | src/app/experiments/redditshot/lib/services/reddit.ts:134-142 | no id is emitted twice, and no reply of the target is emitted |
| Reddit.ThreadEndsAtTarget | src/app/experiments/redditshot/lib/services/reddit.ts:126-177 | the output is the last `Kept(depth, maxComments)` comments of the chain (all of them for `Infinity` or 0, since `slice(-0)` keeps everything, otherwise `min(n, depth)`), root-most first, with depth `i`, ending with the target |
| Reddit.ThreadEmitsNoRepliesOfTarget | src/app/experiments/redditshot/lib/services/reddit.ts:135-157 | with unique ids no comment is emitted twice, and the target's replies are visited but never emitted |
| Rss.ReplaceCharStep | src/lib/rss.ts:18-22 | a global one-character replace handles the first character and then the rest |
| Rss.ReplaceCharAppend | src/lib/rss.ts:18-22 | a global one-character replace distributes over concatenation |
| Rss.ReplaceCharSingle | src/lib/rss.ts:18-22 | replacing in one character gives the replacement or the character |
| Rss.ReplaceCharAbsent | src/lib/rss.ts:18-22 | replacing an absent character changes nothing |
| Rss.EscapeAppend | src/lib/rss.ts:16-23 | `escapeXml` distributes over concatenation |
| Rss.EscapeOne | src/lib/rss.ts:16-23 | each character escapes to its entity from section 4.6 of XML 1.0, or to itself |
| Rss.EscapeXmlSpec | src/lib/rss.ts:16-23 | the chain of five replaces equals escaping character by character, so `&` is never escaped twice |
| Rss.EscapedSafe | src/lib/rss.ts:16-23 | the output has no `<`, `>`, `"` or `'`, and every `&` begins `&amp; &lt; &gt; &quot;` or `&apos;` |
| Rss.EscapeCharAt | src/lib/rss.ts:16-23 | inside one escaped character, an `&` can only be the start of an entity |
| Rss.EscapedCharsSafe | src/lib/rss.ts:16-23 | character-wise escaping produces safe text |
| Rss.EscapedLength | src/lib/rss.ts:16-23 | escaping never shortens, and keeps the length exactly when no special character occurs |
| Rss.EscapeXmlIdentity | src/lib/rss.ts:16-23 | `escapeXml` returns its input exactly when the input has none of `& < > " '` |
| Rss.StripTags | src/lib/rss.ts:30 | removing `<...>` tags never lengthens the text |
| Rss.StripTagsNoTags | src/lib/rss.ts:30 | text without `<` has no tags to remove |
| Rss.DecodePat | src/lib/rss.ts:31-36 | the six entities that are decoded are non-empty patterns |
| Rss.StripHtmlTrimmed | src/lib/rss.ts:28-38 | the output of `stripHtml` has no leading or trailing whitespace |
| Rss.EntityPrefix | src/lib/rss.ts:31-36 | one entity can only begin with another when they are the same |
| Rss.ReplaceOverEntity | src/lib/rss.ts:31-36 | a decode step replaces a whole entity or leaves it as it is, and then goes on after it |
| Rss.StageStep | src/lib/rss.ts:31-36 | each decode step turns one escaped character into its next stage |
| Rss.DecodeStep | src/lib/rss.ts:31-36 | on escaped text, the k-th decode replace takes every character one stage further |
| Rss.DecodeStages | src/lib/rss.ts:31-36 | the first n decode replaces reach stage n |
| Rss.StageEnds | src/lib/rss.ts:16-36 | stage 0 is the escaped text and stage 6 is the original text |
| Rss.StripEscapeRoundTrip | src/lib/rss.ts:16-38 | round trip: `stripHtml(escapeXml(s)) == s.trim()` for every `s` without `&` |
| Rss.TruncateTextSpec | src/lib/rss.ts:43-48 | text within the limit is kept; longer text is cut before the last space of its first `maxLength` characters and gets `...`, or becomes `...` alone when those characters hold no space |
| Rss.TruncateTextLength | src/lib/rss.ts:43-48 | the result is at most `max(maxLength, 0) + 3` long, so at most 3 for a negative limit |
| Rss.CategoryLines | src/lib/rss.ts:102-106 | one category line per category |
| Rss.CategoryLinesAt | src/lib/rss.ts:102-106 | the i-th category line is `<category>` of the i-th escaped category |
| Rss.ItemLinesShape | src/lib/rss.ts:65-106 | the first line of an item is its escaped `<title>`, and its last lines are its categories, one each, in order |
| Rss.GuidRule | src/lib/rss.ts:89-96 | an explicit guid is marked `isPermaLink="true"` exactly when it equals the link; with no guid a link is used as a permalink guid; with neither there is no `<guid>` |
| Rss.DescriptionRule | src/lib/rss.ts:73-78 | an empty description gives no line; otherwise there is one `<description>` holding the escaped, truncated, stripped text, at most 503 characters before escaping, and safe XML |
| Rss.ItemParts | src/lib/rss.ts:65-106 | the `push` sequence builds exactly the item's lines: title, link, description, content, pubDate, guid, author, categories |
| Rss.PushCategories | src/lib/rss.ts:102-106 | the `forEach` appends one category line per category, in order |
| Rss.GenerateRssFeed | src/lib/rss.ts:53-126 | the feed is the channel template around one `<item>` block per input item, in input order, joined by `\n` |
| ImageProxy.Utf8 | src/app/experiments/redditshot/lib/utils/imageProxy.ts:25 | a character encodes to one to four bytes |
| ImageProxy.PercentByte | src/app/experiments/redditshot/lib/utils/imageProxy.ts:25 | a byte is written `%XX` with two upper-case hexadecimal digits |
| ImageProxy.WellEncodedAppend | src/app/experiments/redditshot/lib/utils/imageProxy.ts:25 | well-formed percent-encoding is closed under concatenation |
| ImageProxy.PercentBytesWellEncoded | src/app/experiments/redditshot/lib/utils/imageProxy.ts:25 | percent-encoded bytes are well formed and three characters each |
| ImageProxy.EncodeWellFormed | src/app/experiments/redditshot/lib/utils/imageProxy.ts:25 | the output of `encodeURIComponent` holds only unreserved characters and `%XX` triples (section 2.1 of RFC 3986) |
| ImageProxy.EncodeIdentity | src/app/experiments/redditshot/lib/utils/imageProxy.ts:25 | encoding never shortens and leaves a string unchanged exactly when all its characters are unreserved |
| ImageProxy.ProxiedImageUrls | src/app/experiments/redditshot/lib/utils/imageProxy.ts:32-34 | `getProxiedImageUrls` keeps the length and maps each URL on its own |
| ImageProxy.ProxiedImageUrlSpec | src/app/experiments/redditshot/lib/utils/imageProxy.ts:5-27 | null exactly for a missing or empty URL; an already proxied URL is returned unchanged; any other becomes the prefix followed by the well-formed percent-encoding of the entity-decoded URL |
| ImageProxy.ProxiedImageUrlIdempotent | src/app/experiments/redditshot/lib/utils/imageProxy.ts:12-25 | proxying a proxied URL changes nothing |
| ImageProxy.DecodeNoAmp | src/app/experiments/redditshot/lib/utils/imageProxy.ts:17-22 | a URL without `&` is left alone by the entity clean-up |
| ImageProxy.DoubleEscapedDecodes | src/app/experiments/redditshot/lib/utils/imageProxy.ts:17-22 | `&amp;` is decoded first, so `&amp;lt;` becomes `<` |
| MarkdownTruncate.TruncateText | src/app/experiments/redditshot/lib/utils/markdown.ts:130-133 | empty text or text within the limit is kept; otherwise the result is the first `maxLength` characters plus `...`, `maxLength + 3` long |
| MarkdownTruncate.TruncateTextIdempotent | src/app/experiments/redditshot/lib/utils/markdown.ts:130-133 | truncating twice with the same limit is truncating once |
| JsArray.Filter | src/app/experiments/redditshot/lib/services/reddit.ts:204 | `filter` keeps exactly the elements that pass, and is no longer than its input |
| JsArray.FilterAppend | src/app/experiments/redditshot/lib/services/reddit.ts:204 | `filter` distributes over concatenation, so order is kept |
| JsArray.FilterKeepsAll | src/app/experiments/ascii-wireframer/page.tsx:431 | filtering with a test every element passes changes nothing |
| JsArray.Map | src/lib/rss.ts:63-64 | `map` keeps the length and applies the function pointwise |
| JsArray.FindIndex | src/app/experiments/ascii-wireframer/page.tsx:438 | `findIndex` returns the first index that passes, or -1 when none does |
| JsArray.Find | src/app/experiments/ascii-wireframer/page.tsx:483 | `find` finds a passing element exactly when one exists, and it is the first passing element |
| JsString.TrimEnd | src/app/experiments/ascii-wireframer/page.tsx:222 | removing trailing whitespace leaves a prefix that does not end in whitespace, and only whitespace was removed |
| JsString.TrimStart | src/lib/rss.ts:37 | removing leading whitespace leaves a suffix that does not start with whitespace, and only whitespace was removed |
| JsString.TrimShape | src/lib/rss.ts:37 | `trim` returns the middle of the string, with whitespace only around it and none at its ends |
| JsString.TrimEmptyIff | src/app/experiments/ascii-wireframer/page.tsx:432 | `trim` gives `''` exactly for all-whitespace text |
| JsString.ReplaceSkip | src/lib/rss.ts:31-36 | a global replace passes over text that cannot start the pattern |
| JsString.ContainsPrefix | src/app/experiments/redditshot/lib/utils/imageProxy.ts:12 | a string that starts with a pattern contains it |
| JsString.Substring | src/lib/rss.ts:45-47 | `substring` of in-range indices is the slice between them, in either order, with the length of the clamped span |
| JsString.SubstringSymmetric | src/lib/rss.ts:45-47 | swapping the two arguments of `substring` changes nothing |
| JsString.SubstringClamps | src/lib/rss.ts:45-47 | out-of-range arguments act as the nearest end of the string |
| JsString.IndexOf | src/lib/rss.ts:30 | the first occurrence of a character, or -1 |
| JsString.LastIndexOf | src/lib/rss.ts:46 | the last occurrence of a character, or -1 |
| JsString.JoinEmpty | src/app/experiments/ascii-wireframer/page.tsx:228 | a join with a non-empty separator is empty exactly for no parts or one empty part |

## Left out

- Rendering, CSS and focus handling are not modelled. The same goes for clipboard copy with its timeout, the self-tests' run-once window flag and console output, and every network fetch in `reddit.ts`: these are I/O.
- `getCellFromEvent` turns pixels into cells with floating point and DOM geometry. Only its final clamp into the grid is modelled (`EditorOps.BoardCell`); the raw cell is an integer input.
- `uid()` uses `Math.random` and `Date`. Each handler that needs a fresh id takes it as a parameter (`newId`, or the constructor's six ids).
- React state updates are batched and handlers close over stale state. Each handler is modelled as one atomic sequential transition instead. The edit box's `onBlur` commit and the window's keydown handler, which fire around the same events as the board handlers, are modelled by `CommitTextEdit` and `KeyDown` alone.
- `onPointerLeave` is wired to `onPointerUp` in the code, so leaving the board finishes the drag and commits it. It is modelled as `PointerUp`, not as a cancelled drag.
- The sliders do not re-clamp existing shapes when the grid shrinks. The model keeps this behaviour, so "every box fits the grid" is stated only where the code maintains it (`Editor.Wireframer.constructor`, `EditorOps.DrawnBox`, `WireGeometry.ResizeBox`, `EditorOps.NudgeBoxesSpec`), not as a class invariant.
- EditorOps.TextEditAtSpec: when the hit text's id is empty, `id || uid()` gives the edit a fresh id, and this lemma does not say so; it states only that a non-empty id is kept. `Editor.Wireframer.PointerDown` itself uses the exact definition.
- Reddit.BuildCommentTree: requires the ids of the whole reply forest to be unique. With duplicate ids the code's parent map can form a cycle, and its `while` loop would then not terminate.
- `maxComments` is a `Limit`: either `Infinity` or a natural number. A negative limit is never passed: the page's slider starts at 1.
- `Number()`, `String()` and `Boolean()` coercions of raw JSON are dynamic typing. Raw comments are already typed records, and `Listed` stands for "`kind === 't1'` and not stickied". `transformRedditPost` is not part of this model.
- `formatRSSDate` wraps `Date.toUTCString`. It is a function parameter of the feed, and `new Date()`, the default `lastBuildDate`, is the parameter `now`.
- Absent optional fields of an RSS item (`link`, `description`, `content`, `guid`, `author`) are the empty string, which the code treats like `undefined`. `pubDate` is an `Option`: `None` stands for every falsy `pubDate` the code can be given, the empty date string `''` included, since `if (item.pubDate)` emits no `<pubDate>` line for any of them; `Some` carries only a truthy date or date string. The default language `en-us` is applied when `language` is `None`.
- Rss.StripEscapeRoundTrip: proved only for text without `&`. With `&`, `escapeXml` followed by `stripHtml` can decode too much, because `stripHtml` decodes entities one kind at a time.
- Raster.DrawText: counts a label in Unicode scalar values, while JavaScript's `value.length` and `value[i]` count UTF-16 code units. A character outside the Basic Multilingual Plane therefore takes one cell here but two cells (its two surrogate halves) in the code.
- Raster.TextHits: takes the same one-cell-per-character view as `Raster.DrawText`.
- EditorOps.LastTextHit: measures a label's span in Unicode scalar values, not UTF-16 code units. A label with characters outside the Basic Multilingual Plane is hit over fewer columns than in the code.
- EditorOps.MarqueeTexts: measures the label span the same way as `EditorOps.LastTextHit`.
- Rss.TruncateText: `text.length`, `substring` and `lastIndexOf` count UTF-16 code units in the code. Here they count Unicode scalar values, so text with characters outside the Basic Multilingual Plane can be cut at a different place.
- MarkdownTruncate.TruncateText: counts Unicode scalar values, as `Rss.TruncateText` does, not UTF-16 code units. The code can also cut a surrogate pair in half, which this model cannot express.
- JsString.Substring: indexes Unicode scalar values, not UTF-16 code units, as do `JsString.IndexOf` and `JsString.LastIndexOf`.
- Raster.MakeGrid: takes `nat` sizes, and so does `Export.Scene`. `new Array(n)` throws a RangeError for a negative `n`, but the editor keeps at least 8 rows and 16 columns, so that error cannot arise from it.
- `encodeURIComponent` throws a URIError on lone surrogates. Dafny characters are Unicode scalar values, so that input cannot be expressed.
- `parseRedditMarkdown`, `createRedditRenderer`, `getSiteURL` and the RSS route handlers are not part of this model.
