/**
 * The ASCII Wireframer's editor: the page's state (tool, board size, style,
 * shapes, drag, selection, open text edit) and its event handlers.
 *
 * Each handler is one atomic transition. Where a handler first commits an open
 * text edit and then keeps going, the rest of it reads the shapes and the
 * selection as they were before the commit, as the page's closures do.
 */
module Editor {
  import opened JsArray
  import opened JsString
  import opened Palette
  import opened WireGeometry
  import opened EditorOps

  datatype Tool = BoxTool | TextTool | SelectTool

  /** `hitTest`'s two loops: texts from the top down, then boxes from the top down. */
  method FindHit(boxes: seq<Box>, texts: seq<TextItem>, cell: Cell) returns (hit: Option<Selection>)
    ensures hit == HitTest(boxes, texts, cell)
  {
    var i := |texts| - 1;
    while i >= 0
      invariant -1 <= i < |texts|
      invariant LastTextHit(texts, cell) <= i
    {
      var t := texts[i];
      var len := |t.value|;
      if cell.y == t.y && cell.x >= t.x && cell.x < t.x + (if len > 1 then len else 1) {
        return Some(Selection(TextKind, t.id));
      }
      i := i - 1;
    }
    var j := |boxes| - 1;
    while j >= 0
      invariant -1 <= j < |boxes|
      invariant LastBoxHit(boxes, cell) <= j
    {
      var b := boxes[j];
      if cell.x >= b.x && cell.x < b.x + b.w && cell.y >= b.y && cell.y < b.y + b.h {
        return Some(Selection(BoxKind, b.id));
      }
      j := j - 1;
    }
    return None;
  }

  /** `parseInt(v || '0', 10) || fallback` clamped: an unparsable or zero input falls back. */
  function SliderValue(parsed: Option<int>, fallback: int, lo: int, hi: int): (r: int)
    requires lo <= hi
    ensures lo <= r <= hi
    ensures parsed.Some? && parsed.value != 0 && lo <= parsed.value <= hi ==> r == parsed.value
    ensures (parsed.None? || parsed.value == 0) && lo <= fallback <= hi ==> r == fallback
  {
    var v := if parsed.None? || parsed.value == 0 then fallback else parsed.value;
    Clamp(v, lo, hi)
  }

  class Wireframer {
    var tool: Tool
    var rows: int
    var cols: int
    var style: Style
    var boxes: seq<Box>
    var texts: seq<TextItem>
    var drag: Option<Drag>
    var selected: seq<Selection>
    var editing: Option<EditState>

    /**
     * The board stays within the sliders' clamps, shapes never sit at a
     * negative position, boxes are never empty, and the drag's snapshots and
     * the open edit obey the same rules.
     */
    predicate Valid()
      reads this
    {
      && 8 <= rows <= 200 && 16 <= cols <= 400
      && BoxesOk(boxes) && TextsOk(texts)
      && (drag.Some? ==> DragOk(drag.value))
      && (editing.Some? ==> editing.value.x >= 0 && editing.value.y >= 0)
    }

    /** The texts and selection that `commitTextEdit` would leave. */
    function AfterCommit(): Committed
      reads this
    {
      if editing.Some? then CommitEdit(texts, selected, editing.value) else Committed(texts, selected)
    }

    /** The initial page: box tool, a 28 x 64 ASCII board with three boxes and three labels. */
    constructor (b1: Id, b2: Id, b3: Id, t1: Id, t2: Id, t3: Id)
      ensures Valid()
      ensures tool == BoxTool && rows == 28 && cols == 64 && style == Ascii
      ensures boxes == [Box(b1, 2, 2, 22, 7), Box(b2, 26, 2, 36, 7), Box(b3, 2, 11, 60, 14)]
      ensures texts == [TextItem(t1, 4, 4, "Login"), TextItem(t2, 28, 4, "Dashboard"), TextItem(t3, 4, 13, "Content")]
      ensures drag.None? && selected == [] && editing.None?
      ensures forall i :: 0 <= i < |boxes| ==> BoxInGrid(boxes[i], rows, cols)
    {
      tool := BoxTool;
      rows := 28;
      cols := 64;
      style := Ascii;
      boxes := [Box(b1, 2, 2, 22, 7), Box(b2, 26, 2, 36, 7), Box(b3, 2, 11, 60, 14)];
      texts := [TextItem(t1, 4, 4, "Login"), TextItem(t2, 28, 4, "Dashboard"), TextItem(t3, 4, 13, "Content")];
      drag := None;
      selected := [];
      editing := None;
    }

    /** `commitTextEdit`: store the open edit (unless it is blank) and close it. */
    method CommitTextEdit()
      requires Valid()
      modifies this
      ensures Valid()
      ensures texts == old(AfterCommit()).texts && selected == old(AfterCommit()).selected
      ensures editing.None?
      ensures tool == old(tool) && rows == old(rows) && cols == old(cols) && style == old(style)
      ensures boxes == old(boxes) && drag == old(drag)
    {
      if editing.Some? {
        CommitEditKeepsOk(texts, selected, editing.value);
        StoreCommit(CommitEdit(texts, selected, editing.value));
      }
    }

    /** Store a committed edit's texts and selection and close the edit box. */
    method StoreCommit(c: Committed)
      requires Valid() && TextsOk(c.texts)
      modifies this
      ensures Valid()
      ensures texts == c.texts && selected == c.selected && editing.None?
      ensures tool == old(tool) && rows == old(rows) && cols == old(cols) && style == old(style)
      ensures boxes == old(boxes) && drag == old(drag)
    {
      texts := c.texts;
      selected := c.selected;
      editing := None;
    }

    /** `cancelTextEdit`: drop the open edit. */
    method CancelTextEdit()
      requires Valid()
      modifies this
      ensures Valid()
      ensures editing.None?
      ensures tool == old(tool) && rows == old(rows) && cols == old(cols) && style == old(style)
      ensures boxes == old(boxes) && texts == old(texts) && drag == old(drag) && selected == old(selected)
    {
      editing := None;
    }

    /** The edit box's `onChange`: the open edit takes the typed value. */
    method EditInput(value: string)
      requires Valid()
      modifies this
      ensures Valid()
      ensures editing == (if old(editing).Some? then Some(old(editing).value.(value := value)) else None)
      ensures tool == old(tool) && rows == old(rows) && cols == old(cols) && style == old(style)
      ensures boxes == old(boxes) && texts == old(texts) && drag == old(drag) && selected == old(selected)
    {
      if editing.Some? {
        editing := Some(editing.value.(value := value));
      }
    }

    /**
     * `onPointerDown` on the board: commit any open edit, then act by tool.
     * The box tool clears the selection and starts drawing. The text tool
     * opens the clicked text, or a new one, and clears the selection. The
     * select tool toggles the hit shape with shift; without shift it keeps a
     * selection that already holds the hit (else selects just the hit) and
     * starts moving it; on empty board it starts a marquee, clearing the
     * selection unless shift is held.
     */
    method PointerDown(raw: Cell, shift: bool, newId: Id)
      requires Valid()
      modifies this
      ensures Valid()
      ensures tool == old(tool) && rows == old(rows) && cols == old(cols) && style == old(style)
      ensures boxes == old(boxes) && texts == old(AfterCommit()).texts
      ensures var cell := BoardCell(raw, rows, cols);
        var hit := HitTest(old(boxes), old(texts), cell);
        && (tool == BoxTool ==>
              selected == [] && drag == Some(DrawBoxDrag(cell, cell)) && editing.None?)
        && (tool == TextTool ==>
              selected == [] && drag == old(drag) && editing == TextEditAt(old(boxes), old(texts), cell, newId))
        && (tool == SelectTool && hit.Some? && shift ==>
              selected == Toggle(old(selected), hit.value) && drag == old(drag) && editing.None?)
        && (tool == SelectTool && hit.Some? && !shift ==>
              var next := if hit.value in old(selected) then old(selected) else [hit.value];
              selected == next && drag == Some(MoveStart(cell, next, old(boxes), old(texts))) && editing.None?)
        && (tool == SelectTool && hit.None? ==>
              selected == (if shift then old(AfterCommit()).selected else [])
              && drag == Some(MarqueeDrag(cell, cell)) && editing.None?)
    {
      var cell := BoardCell(raw, rows, cols);
      var boxes0 := boxes;
      var texts0 := texts;
      var selected0 := selected;
      CommitTextEdit();

      if tool == BoxTool {
        selected := [];
        drag := Some(DrawBoxDrag(cell, cell));
        return;
      }

      if tool == TextTool {
        var hit := FindHit(boxes0, texts0, cell);
        if hit.Some? && hit.value.kind == TextKind {
          var t := Find(texts0, HasId(hit.value.id));
          if t.Some? {
            editing := Some(EditState(if t.value.id == [] then newId else t.value.id, t.value.x, t.value.y, t.value.value, false));
          }
        } else {
          editing := Some(EditState(newId, cell.x, cell.y, [], true));
        }
        selected := [];
        return;
      }

      var hit := FindHit(boxes0, texts0, cell);
      if hit.Some? {
        if shift {
          selected := Toggle(selected0, hit.value);
        } else {
          var next := if hit.value in selected0 then selected0 else [hit.value];
          selected := next;
          MoveStartSpec(cell, next, boxes0, texts0);
          drag := Some(MoveStart(cell, next, boxes0, texts0));
        }
      } else {
        if !shift {
          selected := [];
        }
        drag := Some(MarqueeDrag(cell, cell));
      }
    }

    /**
     * A resize handle's `onPointerDown`. The four handles are shown only on a
     * box that is the one selected shape while the select tool is active; a
     * press starts a resize drag holding the box as it was.
     */
    method PressHandle(raw: Cell, i: int, handle: Handle)
      requires Valid()
      requires 0 <= i < |boxes|
      modifies this
      ensures Valid()
      ensures tool == old(tool) && rows == old(rows) && cols == old(cols) && style == old(style)
      ensures boxes == old(boxes) && texts == old(texts) && selected == old(selected) && editing == old(editing)
      ensures var shown := tool == SelectTool && |selected| == 1 && Selection(BoxKind, boxes[i].id) in selected;
        var cell := BoardCell(raw, rows, cols);
        drag == if shown then Some(ResizeDrag(cell, cell, boxes[i].id, handle, boxes[i])) else old(drag)
    {
      if tool == SelectTool && |selected| == 1 && Selection(BoxKind, boxes[i].id) in selected {
        var cell := BoardCell(raw, rows, cols);
        drag := Some(ResizeDrag(cell, cell, boxes[i].id, handle, boxes[i]));
      }
    }

    /**
     * `onPointerMove`: with no drag, or while the pointer stays in the same
     * cell, nothing happens. Otherwise a move drag repositions every
     * snapshotted shape relative to its snapshot, a resize drag replaces the
     * box with the resized snapshot, and every drag follows the pointer.
     */
    method PointerMove(raw: Cell)
      requires Valid()
      modifies this
      ensures Valid()
      ensures tool == old(tool) && rows == old(rows) && cols == old(cols) && style == old(style)
      ensures selected == old(selected) && editing == old(editing)
      ensures var cell := BoardCell(raw, rows, cols);
        && (old(drag).None? || cell == old(drag).value.current ==>
              drag == old(drag) && boxes == old(boxes) && texts == old(texts))
        && (old(drag).Some? && cell != old(drag).value.current ==>
              var d := old(drag).value;
              && drag == Some(d.(current := cell))
              && (d.MoveDrag? ==>
                    && boxes == DragBoxes(old(boxes), d.originBoxes, cell.x - d.start.x, cell.y - d.start.y, rows, cols)
                    && texts == DragTexts(old(texts), d.originTexts, cell.x - d.start.x, cell.y - d.start.y, rows, cols))
              && (d.ResizeDrag? ==>
                    boxes == ReplaceBox(old(boxes), d.id, ResizeBox(d.origin, d.handle, cell, rows, cols)) && texts == old(texts))
              && (d.DrawBoxDrag? || d.MarqueeDrag? ==> boxes == old(boxes) && texts == old(texts)))
    {
      if drag.None? {
        return;
      }
      var d := drag.value;
      var cell := BoardCell(raw, rows, cols);
      if cell == d.current {
        return;
      }
      match d {
        case MoveDrag(start, _, _, originBoxes, originTexts) =>
          ApplyMove(originBoxes, originTexts, cell.x - start.x, cell.y - start.y);
        case ResizeDrag(_, _, id, handle, origin) =>
          ApplyResize(id, ResizeBox(origin, handle, cell, rows, cols));
        case _ =>
      }
      drag := Some(d.(current := cell));
    }

    /**
     * `onPointerUp` (also bound to `onPointerLeave`): a draw-box drag adds the
     * spanned box and selects it; a move drag that went anywhere re-applies
     * the final offset; a marquee selects what it touches; a resize applies
     * the final cell. The drag then ends.
     */
    method PointerUp(newId: Id)
      requires Valid()
      modifies this
      ensures Valid()
      ensures tool == old(tool) && rows == old(rows) && cols == old(cols) && style == old(style)
      ensures editing == old(editing) && drag.None?
      ensures Board(boxes, texts, selected) ==
        if old(drag).None? then Board(old(boxes), old(texts), old(selected))
        else FinishDrag(old(drag).value, Board(old(boxes), old(texts), old(selected)), rows, cols, newId)
    {
      if drag.Some? {
        EndDrag(drag.value, newId);
      }
      drag := None;
    }

    /** The state changes of `onPointerUp` for the drag `d`, dispatched on its kind. */
    method EndDrag(d: Drag, newId: Id)
      requires Valid() && DragOk(d)
      modifies this
      ensures Valid()
      ensures tool == old(tool) && rows == old(rows) && cols == old(cols) && style == old(style)
      ensures editing == old(editing) && drag == old(drag)
      ensures Board(boxes, texts, selected) == FinishDrag(d, Board(old(boxes), old(texts), old(selected)), rows, cols, newId)
    {
      match d {
        case DrawBoxDrag(start, current) =>
          AddDrawnBox(start, current, newId);
        case MoveDrag(start, current, _, originBoxes, originTexts) =>
          var dx := current.x - start.x;
          var dy := current.y - start.y;
          if dx != 0 || dy != 0 {
            ApplyMove(originBoxes, originTexts, dx, dy);
          }
        case MarqueeDrag(start, current) =>
          selected := MarqueeSelection(boxes, texts, RectFromCells(start, current));
        case ResizeDrag(_, current, id, handle, origin) =>
          ApplyResize(id, ResizeBox(origin, handle, current, rows, cols));
      }
    }

    /** The box a draw drag outlines is added and becomes the whole selection. */
    method AddDrawnBox(start: Cell, current: Cell, newId: Id)
      requires Valid()
      modifies this
      ensures Valid()
      ensures boxes == old(boxes) + [DrawnBox(start, current, rows, cols, newId)]
      ensures selected == [Selection(BoxKind, newId)]
      ensures tool == old(tool) && rows == old(rows) && cols == old(cols) && style == old(style)
      ensures texts == old(texts) && drag == old(drag) && editing == old(editing)
    {
      var box := DrawnBox(start, current, rows, cols, newId);
      boxes := boxes + [box];
      selected := [Selection(BoxKind, box.id)];
    }

    /**
     * Reposition every shape that has a snapshot, relative to its snapshot.
     * Each array is rewritten only when it has snapshots; otherwise the
     * rewrite would leave it unchanged anyway.
     */
    method ApplyMove(originBoxes: seq<Box>, originTexts: seq<TextItem>, dx: int, dy: int)
      requires Valid() && BoxesOk(originBoxes) && TextsOk(originTexts)
      modifies this
      ensures Valid()
      ensures boxes == DragBoxes(old(boxes), originBoxes, dx, dy, rows, cols)
      ensures texts == DragTexts(old(texts), originTexts, dx, dy, rows, cols)
      ensures tool == old(tool) && rows == old(rows) && cols == old(cols) && style == old(style)
      ensures drag == old(drag) && selected == old(selected) && editing == old(editing)
    {
      if |originBoxes| > 0 {
        ApplyBoxDrag(originBoxes, dx, dy);
      } else {
        assert DragBoxes(boxes, originBoxes, dx, dy, rows, cols) == boxes;
      }
      if |originTexts| > 0 {
        ApplyTextDrag(originTexts, dx, dy);
      } else {
        assert DragTexts(texts, originTexts, dx, dy, rows, cols) == texts;
      }
    }

    /** Reposition the boxes that have a snapshot. */
    method ApplyBoxDrag(originBoxes: seq<Box>, dx: int, dy: int)
      requires Valid() && BoxesOk(originBoxes)
      modifies this
      ensures Valid()
      ensures boxes == DragBoxes(old(boxes), originBoxes, dx, dy, rows, cols)
      ensures tool == old(tool) && rows == old(rows) && cols == old(cols) && style == old(style)
      ensures texts == old(texts) && drag == old(drag) && selected == old(selected) && editing == old(editing)
    {
      var next := DragBoxes(boxes, originBoxes, dx, dy, rows, cols);
      forall i | 0 <= i < |boxes| ensures BoxOk(next[i]) {
        DragBoxesSpec(boxes, originBoxes, dx, dy, rows, cols, i);
        var o := OriginBox(originBoxes, boxes[i].id);
        if o.Some? {
          assert o.value in originBoxes;
        }
      }
      boxes := next;
    }

    /** Reposition the texts that have a snapshot. */
    method ApplyTextDrag(originTexts: seq<TextItem>, dx: int, dy: int)
      requires Valid() && TextsOk(originTexts)
      modifies this
      ensures Valid()
      ensures texts == DragTexts(old(texts), originTexts, dx, dy, rows, cols)
      ensures tool == old(tool) && rows == old(rows) && cols == old(cols) && style == old(style)
      ensures boxes == old(boxes) && drag == old(drag) && selected == old(selected) && editing == old(editing)
    {
      var next := DragTexts(texts, originTexts, dx, dy, rows, cols);
      forall i | 0 <= i < |texts| ensures TextOk(next[i]) {
        DragTextsSpec(texts, originTexts, dx, dy, rows, cols, i);
      }
      texts := next;
    }

    /** Put the resized box in place of every box with its id. */
    method ApplyResize(id: Id, next: Box)
      requires Valid() && BoxOk(next)
      modifies this
      ensures Valid()
      ensures boxes == ReplaceBox(old(boxes), id, next)
      ensures tool == old(tool) && rows == old(rows) && cols == old(cols) && style == old(style)
      ensures texts == old(texts) && drag == old(drag) && selected == old(selected) && editing == old(editing)
    {
      ReplaceBoxSpec(boxes, id, next);
      boxes := ReplaceBox(boxes, id, next);
    }

    /** `removeSelected`: delete every selected shape and clear the selection. */
    method RemoveSelected()
      requires Valid()
      modifies this
      ensures Valid()
      ensures tool == old(tool) && rows == old(rows) && cols == old(cols) && style == old(style)
      ensures drag == old(drag) && editing == old(editing)
      ensures old(selected) == [] ==> boxes == old(boxes) && texts == old(texts) && selected == []
      ensures boxes == RemoveBoxes(old(boxes), IdsOf(old(selected), BoxKind))
      ensures texts == RemoveTexts(old(texts), IdsOf(old(selected), TextKind))
      ensures selected == []
    {
      var boxIds := IdsOf(selected, BoxKind);
      var textIds := IdsOf(selected, TextKind);
      RemoveKeepsOk(boxes, texts, boxIds, textIds);
      if |selected| == 0 {
        assert boxIds == {} && textIds == {};
        return;
      }
      if |boxIds| > 0 {
        boxes := RemoveBoxes(boxes, boxIds);
      }
      if |textIds| > 0 {
        texts := RemoveTexts(texts, textIds);
      }
      selected := [];
    }

    /** The arrow keys: move the selected shapes by the step, clamped to the board. */
    method Nudge(dx: int, dy: int)
      requires Valid()
      modifies this
      ensures Valid()
      ensures boxes == NudgeBoxes(old(boxes), IdsOf(old(selected), BoxKind), dx, dy, rows, cols)
      ensures texts == NudgeTexts(old(texts), IdsOf(old(selected), TextKind), dx, dy, rows, cols)
      ensures tool == old(tool) && rows == old(rows) && cols == old(cols) && style == old(style)
      ensures drag == old(drag) && selected == old(selected) && editing == old(editing)
    {
      var boxIds := IdsOf(selected, BoxKind);
      var textIds := IdsOf(selected, TextKind);
      var nb := NudgeBoxes(boxes, boxIds, dx, dy, rows, cols);
      var nt := NudgeTexts(texts, textIds, dx, dy, rows, cols);
      forall i | 0 <= i < |boxes| ensures BoxOk(nb[i]) {
        NudgeBoxesSpec(boxes, boxIds, dx, dy, rows, cols, i);
      }
      forall i | 0 <= i < |texts| ensures TextOk(nt[i]) {
        NudgeTextsSpec(texts, textIds, dx, dy, rows, cols, i);
      }
      if |boxIds| > 0 {
        boxes := nb;
      } else {
        assert nb == boxes;
      }
      if |textIds| > 0 {
        texts := nt;
      } else {
        assert nt == texts;
      }
    }

    /**
     * The window's `keydown` handler. While an edit is open only Enter
     * (commit) and Escape (cancel) act. Otherwise Backspace or Delete removes
     * a non-empty selection, and the arrow keys move it by one cell, or by
     * five with shift.
     */
    method KeyDown(key: string, shift: bool)
      requires Valid()
      modifies this
      ensures Valid()
      ensures tool == old(tool) && rows == old(rows) && cols == old(cols) && style == old(style)
      ensures drag == old(drag)
      ensures old(editing).Some? ==>
        if key == "Enter" then
          editing.None? && boxes == old(boxes) && texts == old(AfterCommit()).texts && selected == old(AfterCommit()).selected
        else if key == "Escape" then
          editing.None? && boxes == old(boxes) && texts == old(texts) && selected == old(selected)
        else
          editing == old(editing) && boxes == old(boxes) && texts == old(texts) && selected == old(selected)
      ensures old(editing).None? ==> editing.None?
      ensures old(editing).None? && (key == "Backspace" || key == "Delete") && old(selected) != [] ==>
        && boxes == RemoveBoxes(old(boxes), IdsOf(old(selected), BoxKind))
        && texts == RemoveTexts(old(texts), IdsOf(old(selected), TextKind))
        && selected == []
      ensures old(editing).None? && old(selected) != [] && key in ArrowKeys() ==>
        var step := if shift then 5 else 1;
        var dx := if key == "ArrowLeft" then -step else if key == "ArrowRight" then step else 0;
        var dy := if key == "ArrowUp" then -step else if key == "ArrowDown" then step else 0;
        && boxes == NudgeBoxes(old(boxes), IdsOf(old(selected), BoxKind), dx, dy, rows, cols)
        && texts == NudgeTexts(old(texts), IdsOf(old(selected), TextKind), dx, dy, rows, cols)
        && selected == old(selected)
      ensures old(editing).None? && (old(selected) == [] || (key !in ArrowKeys() && key != "Backspace" && key != "Delete")) ==>
        boxes == old(boxes) && texts == old(texts) && selected == old(selected)
    {
      if editing.Some? {
        if key == "Enter" {
          CommitTextEdit();
        }
        if key == "Escape" {
          CancelTextEdit();
        }
        return;
      }
      if (key == "Backspace" || key == "Delete") && |selected| > 0 {
        RemoveSelected();
        return;
      }
      if |selected| == 0 {
        return;
      }
      var step := if shift then 5 else 1;
      if key == "ArrowLeft" {
        Nudge(-step, 0);
      }
      if key == "ArrowRight" {
        Nudge(step, 0);
      }
      if key == "ArrowUp" {
        Nudge(0, -step);
      }
      if key == "ArrowDown" {
        Nudge(0, step);
      }
    }

    /** A toolbar tool button. */
    method SetTool(t: Tool)
      requires Valid()
      modifies this
      ensures Valid() && tool == t
      ensures rows == old(rows) && cols == old(cols) && style == old(style) && boxes == old(boxes) && texts == old(texts)
      ensures drag == old(drag) && selected == old(selected) && editing == old(editing)
    {
      tool := t;
    }

    /** The ascii / unicode switch. */
    method SetStyle(s: Style)
      requires Valid()
      modifies this
      ensures Valid() && style == s
      ensures tool == old(tool) && rows == old(rows) && cols == old(cols) && boxes == old(boxes) && texts == old(texts)
      ensures drag == old(drag) && selected == old(selected) && editing == old(editing)
    {
      style := s;
    }

    /** The rows slider: unparsable or zero input means 28; the result is kept in [8, 200]. */
    method SetRows(parsed: Option<int>)
      requires Valid()
      modifies this
      ensures Valid() && rows == SliderValue(parsed, 28, 8, 200)
      ensures tool == old(tool) && cols == old(cols) && style == old(style) && boxes == old(boxes) && texts == old(texts)
      ensures drag == old(drag) && selected == old(selected) && editing == old(editing)
    {
      rows := SliderValue(parsed, 28, 8, 200);
    }

    /** The columns slider: unparsable or zero input means 64; the result is kept in [16, 400]. */
    method SetCols(parsed: Option<int>)
      requires Valid()
      modifies this
      ensures Valid() && cols == SliderValue(parsed, 64, 16, 400)
      ensures tool == old(tool) && rows == old(rows) && style == old(style) && boxes == old(boxes) && texts == old(texts)
      ensures drag == old(drag) && selected == old(selected) && editing == old(editing)
    {
      cols := SliderValue(parsed, 64, 16, 400);
    }
  }

  function ArrowKeys(): set<string>
  {
    {"ArrowLeft", "ArrowRight", "ArrowUp", "ArrowDown"}
  }
}
