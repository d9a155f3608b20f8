/**
 * The pure steps of the ASCII Wireframer's editor handlers: hit-testing,
 * selection toggling, the move / nudge / resize rewrites of the shape arrays,
 * deletion, the marquee query, the box a draw-box drag commits and the
 * upsert a text edit commits.
 */
module EditorOps {
  import opened JsArray
  import opened JsString
  import opened WireGeometry

  datatype Kind = BoxKind | TextKind

  datatype Selection = Selection(kind: Kind, id: Id)

  /** An open text edit: where it goes, what has been typed, and whether it is a new text. */
  datatype EditState = EditState(id: Id, x: int, y: int, value: string, isNew: bool)

  /** Positions never go negative and boxes are never empty. */
  predicate BoxOk(b: Box) { b.x >= 0 && b.y >= 0 && b.w >= 1 && b.h >= 1 }

  predicate TextOk(t: TextItem) { t.x >= 0 && t.y >= 0 }

  predicate BoxesOk(boxes: seq<Box>) { forall i :: 0 <= i < |boxes| ==> BoxOk(boxes[i]) }

  predicate TextsOk(texts: seq<TextItem>) { forall i :: 0 <= i < |texts| ==> TextOk(texts[i]) }

  /**
   * An ongoing pointer drag. A move drag keeps the selection it moves and
   * snapshots of the shapes as they were when it started; a resize drag keeps
   * the box as it was.
   */
  datatype Drag =
    | DrawBoxDrag(start: Cell, current: Cell)
    | MoveDrag(start: Cell, current: Cell, selection: seq<Selection>, originBoxes: seq<Box>, originTexts: seq<TextItem>)
    | MarqueeDrag(start: Cell, current: Cell)
    | ResizeDrag(start: Cell, current: Cell, id: Id, handle: Handle, origin: Box)

  predicate DragOk(d: Drag)
  {
    match d
    case MoveDrag(_, _, _, bs, ts) => BoxesOk(bs) && TextsOk(ts)
    case ResizeDrag(_, _, _, _, o) => BoxOk(o)
    case _ => true
  }

  /**
   * `getCellFromEvent`: the pointer's cell (its pixel offset divided by the
   * cell size and floored) clamped onto the board.
   */
  function BoardCell(raw: Cell, rows: int, cols: int): (c: Cell)
    ensures rows >= 1 && cols >= 1 ==> CellInGrid(c, rows, cols)
    ensures CellInGrid(raw, rows, cols) ==> c == raw
    ensures 0 <= c.x && 0 <= c.y
  {
    Cell(Clamp(raw.x, 0, cols - 1), Clamp(raw.y, 0, rows - 1))
  }

  // ---------------------------------------------------------------------------
  // hitTest

  /** For hit-testing a text spans `max(1, len)` cells of its row. */
  predicate TextHit(t: TextItem, cell: Cell)
  {
    cell.y == t.y && t.x <= cell.x < t.x + (if |t.value| > 1 then |t.value| else 1)
  }

  predicate BoxHit(b: Box, cell: Cell)
  {
    b.x <= cell.x < b.x + b.w && b.y <= cell.y < b.y + b.h
  }

  /** The index of the topmost (last) text under the cell, or -1. */
  function LastTextHit(texts: seq<TextItem>, cell: Cell): (r: int)
    ensures -1 <= r < |texts|
    ensures r >= 0 ==> TextHit(texts[r], cell)
    ensures forall i :: r < i < |texts| ==> !TextHit(texts[i], cell)
  {
    if texts == [] then -1
    else if TextHit(texts[|texts| - 1], cell) then |texts| - 1
    else LastTextHit(texts[..|texts| - 1], cell)
  }

  /** The index of the topmost (last) box under the cell, or -1. */
  function LastBoxHit(boxes: seq<Box>, cell: Cell): (r: int)
    ensures -1 <= r < |boxes|
    ensures r >= 0 ==> BoxHit(boxes[r], cell)
    ensures forall i :: r < i < |boxes| ==> !BoxHit(boxes[i], cell)
  {
    if boxes == [] then -1
    else if BoxHit(boxes[|boxes| - 1], cell) then |boxes| - 1
    else LastBoxHit(boxes[..|boxes| - 1], cell)
  }

  /** `hitTest`: texts win over boxes, and within each list the later one wins. */
  function HitTest(boxes: seq<Box>, texts: seq<TextItem>, cell: Cell): Option<Selection>
  {
    var i := LastTextHit(texts, cell);
    if i >= 0 then Some(Selection(TextKind, texts[i].id))
    else
      var j := LastBoxHit(boxes, cell);
      if j >= 0 then Some(Selection(BoxKind, boxes[j].id)) else None
  }

  /**
   * `hitTest` finds a text exactly when some text covers the cell, and then the
   * last such text; it finds a box only when no text covers the cell, and then
   * the last box containing it; otherwise nothing.
   */
  lemma HitTestSpec(boxes: seq<Box>, texts: seq<TextItem>, cell: Cell)
    ensures var hit := HitTest(boxes, texts, cell);
      && (hit.Some? && hit.value.kind == TextKind <==> exists i :: 0 <= i < |texts| && TextHit(texts[i], cell))
      && (hit.Some? && hit.value.kind == TextKind ==>
            exists i :: 0 <= i < |texts| && TextHit(texts[i], cell) && texts[i].id == hit.value.id
              && forall k :: i < k < |texts| ==> !TextHit(texts[k], cell))
      && (hit.Some? && hit.value.kind == BoxKind ==>
            (forall i :: 0 <= i < |texts| ==> !TextHit(texts[i], cell))
            && (exists j :: 0 <= j < |boxes| && BoxHit(boxes[j], cell) && boxes[j].id == hit.value.id
                 && forall k :: j < k < |boxes| ==> !BoxHit(boxes[k], cell)))
      && (hit.None? <==>
            (forall i :: 0 <= i < |texts| ==> !TextHit(texts[i], cell))
            && (forall j :: 0 <= j < |boxes| ==> !BoxHit(boxes[j], cell)))
  {
    var i := LastTextHit(texts, cell);
    var j := LastBoxHit(boxes, cell);
    if i >= 0 {
      assert TextHit(texts[i], cell);
    } else if j >= 0 {
      assert BoxHit(boxes[j], cell);
    }
  }

  // ---------------------------------------------------------------------------
  // Selections

  /** Shift-click: drop the hit from the selection if it is there, otherwise append it. */
  function Toggle(selected: seq<Selection>, hit: Selection): seq<Selection>
  {
    if hit in selected then Filter(selected, s => s != hit) else selected + [hit]
  }

  /** Shift-click flips the membership of the hit and of nothing else. */
  lemma ToggleFlips(selected: seq<Selection>, hit: Selection)
    ensures hit in Toggle(selected, hit) <==> hit !in selected
    ensures forall s :: s != hit ==> (s in Toggle(selected, hit) <==> s in selected)
  {
  }

  /** Shift-clicking a shape twice restores a selection that did not hold it. */
  lemma ToggleTwice(selected: seq<Selection>, hit: Selection)
    requires hit !in selected
    ensures Toggle(Toggle(selected, hit), hit) == selected
  {
    var keep := (s: Selection) => s != hit;
    FilterAppend(selected, [hit], keep);
    FilterKeepsAll(selected, keep);
    assert Filter([hit], keep) == [];
  }

  /** The ids of the selected shapes of one kind (`new Set(selected.filter(...).map(...))`). */
  function IdsOf(selected: seq<Selection>, kind: Kind): set<Id>
  {
    set s | s in selected && s.kind == kind :: s.id
  }

  /** A shape's id is in the id set of its kind exactly when the shape is selected. */
  lemma IdsOfSpec(selected: seq<Selection>, kind: Kind, id: Id)
    ensures id in IdsOf(selected, kind) <==> Selection(kind, id) in selected
  {
    if Selection(kind, id) in selected {
      assert Selection(kind, id).id == id;
    }
  }

  /**
   * `startMoveSelection`: a move drag anchored at the cell, holding the
   * selection and snapshots of the selected boxes and texts.
   */
  function MoveStart(cell: Cell, sel: seq<Selection>, boxes: seq<Box>, texts: seq<TextItem>): Drag
  {
    var boxIds := IdsOf(sel, BoxKind);
    var textIds := IdsOf(sel, TextKind);
    MoveDrag(cell, cell, sel, Filter(boxes, (b: Box) => b.id in boxIds), Filter(texts, (t: TextItem) => t.id in textIds))
  }

  /** The snapshots hold exactly the selected shapes, and are valid when the shapes are. */
  lemma MoveStartSpec(cell: Cell, sel: seq<Selection>, boxes: seq<Box>, texts: seq<TextItem>)
    ensures var d := MoveStart(cell, sel, boxes, texts);
      && d.start == cell && d.current == cell && d.selection == sel
      && (forall b :: b in d.originBoxes <==> b in boxes && Selection(BoxKind, b.id) in sel)
      && (forall t :: t in d.originTexts <==> t in texts && Selection(TextKind, t.id) in sel)
      && (BoxesOk(boxes) && TextsOk(texts) ==> DragOk(d))
  {
    var d := MoveStart(cell, sel, boxes, texts);
    forall b: Box ensures b.id in IdsOf(sel, BoxKind) <==> Selection(BoxKind, b.id) in sel {
      IdsOfSpec(sel, BoxKind, b.id);
    }
    forall t: TextItem ensures t.id in IdsOf(sel, TextKind) <==> Selection(TextKind, t.id) in sel {
      IdsOfSpec(sel, TextKind, t.id);
    }
    if BoxesOk(boxes) && TextsOk(texts) {
      forall i | 0 <= i < |d.originBoxes| ensures BoxOk(d.originBoxes[i]) {
        assert d.originBoxes[i] in boxes;
      }
      forall i | 0 <= i < |d.originTexts| ensures TextOk(d.originTexts[i]) {
        assert d.originTexts[i] in texts;
      }
    }
  }

  // ---------------------------------------------------------------------------
  // Moving

  /** `find` of the snapshot with a given id. */
  function OriginBox(origins: seq<Box>, id: Id): Option<Box>
  {
    Find(origins, (o: Box) => o.id == id)
  }

  function OriginText(origins: seq<TextItem>, id: Id): Option<TextItem>
  {
    Find(origins, (o: TextItem) => o.id == id)
  }

  /**
   * The move drag on boxes: a box with a snapshot goes to the snapshot's
   * position plus the pointer offset, clamped so it stays on the board.
   */
  function DragBoxes(prev: seq<Box>, origins: seq<Box>, dx: int, dy: int, rows: int, cols: int): seq<Box>
  {
    seq(|prev|, i requires 0 <= i < |prev| =>
      match OriginBox(origins, prev[i].id)
      case None => prev[i]
      case Some(o) => prev[i].(x := Clamp(o.x + dx, 0, cols - o.w), y := Clamp(o.y + dy, 0, rows - o.h)))
  }

  /** The move drag on texts: clamped to the board's cells. */
  function DragTexts(prev: seq<TextItem>, origins: seq<TextItem>, dx: int, dy: int, rows: int, cols: int): seq<TextItem>
  {
    seq(|prev|, i requires 0 <= i < |prev| =>
      match OriginText(origins, prev[i].id)
      case None => prev[i]
      case Some(o) => prev[i].(x := Clamp(o.x + dx, 0, cols - 1), y := Clamp(o.y + dy, 0, rows - 1)))
  }

  /**
   * A box without a snapshot is untouched; a box with one keeps its id and size
   * and lands at the snapshot's position plus the offset whenever that fits
   * the board, and otherwise at the nearest position that does; the position
   * never goes negative.
   */
  lemma DragBoxesSpec(prev: seq<Box>, origins: seq<Box>, dx: int, dy: int, rows: int, cols: int, i: int)
    requires 0 <= i < |prev|
    ensures var r := DragBoxes(prev, origins, dx, dy, rows, cols);
      && |r| == |prev|
      && r[i].id == prev[i].id && r[i].w == prev[i].w && r[i].h == prev[i].h
      && (OriginBox(origins, prev[i].id).None? ==> r[i] == prev[i])
      && (OriginBox(origins, prev[i].id).Some? ==>
            var o := OriginBox(origins, prev[i].id).value;
            && r[i].x >= 0 && r[i].y >= 0
            && (o.w <= cols ==> r[i].x + o.w <= cols)
            && (o.h <= rows ==> r[i].y + o.h <= rows)
            && (0 <= o.x + dx <= cols - o.w ==> r[i].x == o.x + dx)
            && (0 <= o.y + dy <= rows - o.h ==> r[i].y == o.y + dy))
  {
  }

  /**
   * A move drag is absolute, not cumulative: each step recomputes from the
   * snapshots, so two steps in a row are the same as the last one alone.
   */
  lemma DragBoxesAbsolute(prev: seq<Box>, origins: seq<Box>, dx1: int, dy1: int, dx2: int, dy2: int, rows: int, cols: int)
    ensures DragBoxes(DragBoxes(prev, origins, dx1, dy1, rows, cols), origins, dx2, dy2, rows, cols)
         == DragBoxes(prev, origins, dx2, dy2, rows, cols)
  {
    var mid := DragBoxes(prev, origins, dx1, dy1, rows, cols);
    forall i | 0 <= i < |prev|
      ensures DragBoxes(mid, origins, dx2, dy2, rows, cols)[i] == DragBoxes(prev, origins, dx2, dy2, rows, cols)[i]
    {
      assert mid[i].id == prev[i].id;
    }
  }

  lemma DragTextsSpec(prev: seq<TextItem>, origins: seq<TextItem>, dx: int, dy: int, rows: int, cols: int, i: int)
    requires 0 <= i < |prev|
    ensures var r := DragTexts(prev, origins, dx, dy, rows, cols);
      && |r| == |prev|
      && r[i].id == prev[i].id && r[i].value == prev[i].value
      && (OriginText(origins, prev[i].id).None? ==> r[i] == prev[i])
      && (OriginText(origins, prev[i].id).Some? ==>
            var o := OriginText(origins, prev[i].id).value;
            && r[i].x >= 0 && r[i].y >= 0
            && (cols >= 1 ==> r[i].x < cols)
            && (rows >= 1 ==> r[i].y < rows)
            && (0 <= o.x + dx < cols ==> r[i].x == o.x + dx)
            && (0 <= o.y + dy < rows ==> r[i].y == o.y + dy))
  {
  }

  lemma DragTextsAbsolute(prev: seq<TextItem>, origins: seq<TextItem>, dx1: int, dy1: int, dx2: int, dy2: int, rows: int, cols: int)
    ensures DragTexts(DragTexts(prev, origins, dx1, dy1, rows, cols), origins, dx2, dy2, rows, cols)
         == DragTexts(prev, origins, dx2, dy2, rows, cols)
  {
    var mid := DragTexts(prev, origins, dx1, dy1, rows, cols);
    forall i | 0 <= i < |prev|
      ensures DragTexts(mid, origins, dx2, dy2, rows, cols)[i] == DragTexts(prev, origins, dx2, dy2, rows, cols)[i]
    {
      assert mid[i].id == prev[i].id;
    }
  }

  /** The arrow keys on boxes: each selected box moves by the step, clamped to the board. */
  function NudgeBoxes(prev: seq<Box>, ids: set<Id>, dx: int, dy: int, rows: int, cols: int): seq<Box>
  {
    seq(|prev|, i requires 0 <= i < |prev| =>
      if prev[i].id in ids
      then prev[i].(x := Clamp(prev[i].x + dx, 0, cols - prev[i].w), y := Clamp(prev[i].y + dy, 0, rows - prev[i].h))
      else prev[i])
  }

  /** The arrow keys on texts. */
  function NudgeTexts(prev: seq<TextItem>, ids: set<Id>, dx: int, dy: int, rows: int, cols: int): seq<TextItem>
  {
    seq(|prev|, i requires 0 <= i < |prev| =>
      if prev[i].id in ids
      then prev[i].(x := Clamp(prev[i].x + dx, 0, cols - 1), y := Clamp(prev[i].y + dy, 0, rows - 1))
      else prev[i])
  }

  /**
   * A nudge leaves unselected boxes alone and keeps every selected box that
   * was on the board on the board; when the step fits, the box moves by it exactly.
   */
  lemma NudgeBoxesSpec(prev: seq<Box>, ids: set<Id>, dx: int, dy: int, rows: int, cols: int, i: int)
    requires 0 <= i < |prev|
    ensures var r := NudgeBoxes(prev, ids, dx, dy, rows, cols);
      && |r| == |prev|
      && (prev[i].id !in ids ==> r[i] == prev[i])
      && (prev[i].id in ids ==>
            && r[i].id == prev[i].id && r[i].w == prev[i].w && r[i].h == prev[i].h
            && r[i].x >= 0 && r[i].y >= 0
            && (BoxInGrid(prev[i], rows, cols) ==> BoxInGrid(r[i], rows, cols))
            && (0 <= prev[i].x + dx <= cols - prev[i].w ==> r[i].x == prev[i].x + dx)
            && (0 <= prev[i].y + dy <= rows - prev[i].h ==> r[i].y == prev[i].y + dy))
  {
  }

  /** A nudge that fits is undone by the opposite nudge. */
  lemma NudgeBoxesUndo(prev: seq<Box>, ids: set<Id>, dx: int, dy: int, rows: int, cols: int)
    requires forall i :: 0 <= i < |prev| && prev[i].id in ids ==>
      BoxInGrid(prev[i], rows, cols)
      && 0 <= prev[i].x + dx <= cols - prev[i].w && 0 <= prev[i].y + dy <= rows - prev[i].h
    ensures NudgeBoxes(NudgeBoxes(prev, ids, dx, dy, rows, cols), ids, -dx, -dy, rows, cols) == prev
  {
    var mid := NudgeBoxes(prev, ids, dx, dy, rows, cols);
    forall i | 0 <= i < |prev|
      ensures NudgeBoxes(mid, ids, -dx, -dy, rows, cols)[i] == prev[i]
    {
      assert mid[i].id == prev[i].id;
    }
  }

  lemma NudgeTextsSpec(prev: seq<TextItem>, ids: set<Id>, dx: int, dy: int, rows: int, cols: int, i: int)
    requires 0 <= i < |prev|
    ensures var r := NudgeTexts(prev, ids, dx, dy, rows, cols);
      && |r| == |prev|
      && (prev[i].id !in ids ==> r[i] == prev[i])
      && (prev[i].id in ids ==>
            && r[i].id == prev[i].id && r[i].value == prev[i].value
            && r[i].x >= 0 && r[i].y >= 0
            && (cols >= 1 ==> r[i].x < cols) && (rows >= 1 ==> r[i].y < rows)
            && (0 <= prev[i].x + dx < cols ==> r[i].x == prev[i].x + dx)
            && (0 <= prev[i].y + dy < rows ==> r[i].y == prev[i].y + dy))
  {
  }

  /** The resize drag: every box with the dragged id becomes the resized box. */
  function ReplaceBox(prev: seq<Box>, id: Id, next: Box): seq<Box>
  {
    seq(|prev|, i requires 0 <= i < |prev| => if prev[i].id == id then next else prev[i])
  }

  /** Boxes with other ids are untouched; the order of the array is kept. */
  lemma ReplaceBoxSpec(prev: seq<Box>, id: Id, next: Box)
    ensures var r := ReplaceBox(prev, id, next);
      && |r| == |prev|
      && (forall i :: 0 <= i < |prev| && prev[i].id != id ==> r[i] == prev[i])
      && (forall i :: 0 <= i < |prev| && prev[i].id == id ==> r[i] == next)
      && (BoxesOk(prev) && BoxOk(next) ==> BoxesOk(r))
  {
  }

  // ---------------------------------------------------------------------------
  // Deleting

  function RemoveBoxes(prev: seq<Box>, ids: set<Id>): seq<Box>
  {
    Filter(prev, (b: Box) => b.id !in ids)
  }

  function RemoveTexts(prev: seq<TextItem>, ids: set<Id>): seq<TextItem>
  {
    Filter(prev, (t: TextItem) => t.id !in ids)
  }

  /**
   * Deleting keeps exactly the boxes whose id is not selected, in their
   * original order (deleting from a concatenation deletes from each part),
   * and is the identity when no selected id is present.
   */
  lemma RemoveBoxesSpec(a: seq<Box>, b: seq<Box>, ids: set<Id>)
    ensures forall x :: x in RemoveBoxes(a, ids) <==> x in a && x.id !in ids
    ensures RemoveBoxes(a + b, ids) == RemoveBoxes(a, ids) + RemoveBoxes(b, ids)
    ensures (forall i :: 0 <= i < |a| ==> a[i].id !in ids) ==> RemoveBoxes(a, ids) == a
  {
    FilterAppend(a, b, (x: Box) => x.id !in ids);
    if forall i :: 0 <= i < |a| ==> a[i].id !in ids {
      FilterKeepsAll(a, (x: Box) => x.id !in ids);
    }
  }

  lemma RemoveTextsSpec(a: seq<TextItem>, b: seq<TextItem>, ids: set<Id>)
    ensures forall x :: x in RemoveTexts(a, ids) <==> x in a && x.id !in ids
    ensures RemoveTexts(a + b, ids) == RemoveTexts(a, ids) + RemoveTexts(b, ids)
    ensures (forall i :: 0 <= i < |a| ==> a[i].id !in ids) ==> RemoveTexts(a, ids) == a
  {
    FilterAppend(a, b, (x: TextItem) => x.id !in ids);
    if forall i :: 0 <= i < |a| ==> a[i].id !in ids {
      FilterKeepsAll(a, (x: TextItem) => x.id !in ids);
    }
  }

  /** Deleting keeps shapes valid, and deleting no ids changes nothing. */
  lemma RemoveKeepsOk(boxes: seq<Box>, texts: seq<TextItem>, boxIds: set<Id>, textIds: set<Id>)
    requires BoxesOk(boxes) && TextsOk(texts)
    ensures BoxesOk(RemoveBoxes(boxes, boxIds)) && TextsOk(RemoveTexts(texts, textIds))
    ensures boxIds == {} ==> RemoveBoxes(boxes, boxIds) == boxes
    ensures textIds == {} ==> RemoveTexts(texts, textIds) == texts
  {
    RemoveBoxesSpec(boxes, [], boxIds);
    RemoveTextsSpec(texts, [], textIds);
    var rb := RemoveBoxes(boxes, boxIds);
    var rt := RemoveTexts(texts, textIds);
    forall i | 0 <= i < |rb| ensures BoxOk(rb[i]) {
      assert rb[i] in boxes;
    }
    forall i | 0 <= i < |rt| ensures TextOk(rt[i]) {
      assert rt[i] in texts;
    }
  }

  // ---------------------------------------------------------------------------
  // Marquee

  /** The closed rectangles of the box and the marquee intersect. */
  predicate BoxOverlaps(b: Box, r: Rect)
  {
    r.x <= b.x + b.w - 1 && r.x + r.w - 1 >= b.x && r.y <= b.y + b.h - 1 && r.y + r.h - 1 >= b.y
  }

  /** The text's row span (its length, at least 1) meets the marquee. */
  predicate TextOverlaps(t: TextItem, r: Rect)
  {
    var len := if |t.value| == 0 then 1 else |t.value|;
    r.y <= t.y && r.y + r.h - 1 >= t.y && r.x <= t.x + len - 1 && r.x + r.w - 1 >= t.x
  }

  function BoxSelections(boxes: seq<Box>): (r: seq<Selection>)
    ensures |r| == |boxes|
    ensures forall i :: 0 <= i < |boxes| ==> r[i] == Selection(BoxKind, boxes[i].id)
  {
    seq(|boxes|, i requires 0 <= i < |boxes| => Selection(BoxKind, boxes[i].id))
  }

  function TextSelections(texts: seq<TextItem>): (r: seq<Selection>)
    ensures |r| == |texts|
    ensures forall i :: 0 <= i < |texts| ==> r[i] == Selection(TextKind, texts[i].id)
  {
    seq(|texts|, i requires 0 <= i < |texts| => Selection(TextKind, texts[i].id))
  }

  /** The boxes a marquee touches, in array order. */
  function MarqueeBoxes(boxes: seq<Box>, r: Rect): (m: seq<Box>)
    ensures forall b :: b in m <==> b in boxes && BoxOverlaps(b, r)
  {
    Filter(boxes, (b: Box) => BoxOverlaps(b, r))
  }

  /** The texts a marquee touches, in array order. */
  function MarqueeTexts(texts: seq<TextItem>, r: Rect): (m: seq<TextItem>)
    ensures forall t :: t in m <==> t in texts && TextOverlaps(t, r)
  {
    Filter(texts, (t: TextItem) => TextOverlaps(t, r))
  }

  /** The marquee's selection: overlapping boxes, then overlapping texts, each in array order. */
  function MarqueeSelection(boxes: seq<Box>, texts: seq<TextItem>, r: Rect): seq<Selection>
  {
    BoxSelections(MarqueeBoxes(boxes, r)) + TextSelections(MarqueeTexts(texts, r))
  }

  /** The box selections of a list name exactly the boxes in it. */
  lemma BoxSelectionsMembers(bs: seq<Box>)
    ensures forall b :: b in bs ==> Selection(BoxKind, b.id) in BoxSelections(bs)
    ensures forall s :: s in BoxSelections(bs) ==> s.kind == BoxKind && exists b :: b in bs && b.id == s.id
  {
    var sb := BoxSelections(bs);
    forall b | b in bs ensures Selection(BoxKind, b.id) in sb {
      var i :| 0 <= i < |bs| && bs[i] == b;
      assert sb[i] == Selection(BoxKind, b.id);
    }
    forall s | s in sb ensures s.kind == BoxKind && exists b :: b in bs && b.id == s.id {
      var i :| 0 <= i < |sb| && sb[i] == s;
      assert bs[i] in bs;
    }
  }

  /** The text selections of a list name exactly the texts in it. */
  lemma TextSelectionsMembers(ts: seq<TextItem>)
    ensures forall t :: t in ts ==> Selection(TextKind, t.id) in TextSelections(ts)
    ensures forall s :: s in TextSelections(ts) ==> s.kind == TextKind && exists t :: t in ts && t.id == s.id
  {
    var st := TextSelections(ts);
    forall t | t in ts ensures Selection(TextKind, t.id) in st {
      var i :| 0 <= i < |ts| && ts[i] == t;
      assert st[i] == Selection(TextKind, t.id);
    }
    forall s | s in st ensures s.kind == TextKind && exists t :: t in ts && t.id == s.id {
      var i :| 0 <= i < |st| && st[i] == s;
      assert ts[i] in ts;
    }
  }

  /**
   * A shape is selected by the marquee exactly when it overlaps it, and every
   * box selection comes before every text selection.
   */
  lemma MarqueeSpec(boxes: seq<Box>, texts: seq<TextItem>, r: Rect)
    ensures var sel := MarqueeSelection(boxes, texts, r);
      && (forall b :: b in boxes && BoxOverlaps(b, r) ==> Selection(BoxKind, b.id) in sel)
      && (forall t :: t in texts && TextOverlaps(t, r) ==> Selection(TextKind, t.id) in sel)
      && (forall s :: s in sel && s.kind == BoxKind ==> exists b :: b in boxes && BoxOverlaps(b, r) && b.id == s.id)
      && (forall s :: s in sel && s.kind == TextKind ==> exists t :: t in texts && TextOverlaps(t, r) && t.id == s.id)
      && (forall i, j :: 0 <= i < j < |sel| && sel[j].kind == BoxKind ==> sel[i].kind == BoxKind)
  {
    var mb := MarqueeBoxes(boxes, r);
    var mt := MarqueeTexts(texts, r);
    BoxSelectionsMembers(mb);
    TextSelectionsMembers(mt);
    var sb := BoxSelections(mb);
    var st := TextSelections(mt);
    var sel := sb + st;
    assert forall j :: |sb| <= j < |sel| ==> sel[j] == st[j - |sb|];
  }

  // ---------------------------------------------------------------------------
  // Draw-box commit

  /**
   * The box a draw-box drag commits: the rectangle spanned by the two cells,
   * with its origin clamped onto the board and its size clamped to at least 1
   * and to what fits right of and below the rectangle's corner.
   */
  function DrawnBox(start: Cell, current: Cell, rows: int, cols: int, id: Id): (b: Box)
    ensures b.id == id && BoxOk(b)
    ensures CellInGrid(start, rows, cols) && CellInGrid(current, rows, cols) ==>
      BoxInGrid(b, rows, cols) && Rect(b.x, b.y, b.w, b.h) == RectFromCells(start, current)
  {
    var r := RectFromCells(start, current);
    Box(id, Clamp(r.x, 0, cols - 1), Clamp(r.y, 0, rows - 1), Clamp(r.w, 1, cols - r.x), Clamp(r.h, 1, rows - r.y))
  }

  /** The shapes and the selection, the part of the page a drag acts on. */
  datatype Board = Board(boxes: seq<Box>, texts: seq<TextItem>, selected: seq<Selection>)

  /**
   * What releasing the pointer does to the board: a draw drag adds the box it
   * outlines and selects it alone; a move drag that went anywhere places the
   * moved shapes at the final offset from their snapshots; a marquee selects
   * what it touches; a resize applies the final cell to the snapshot.
   */
  function FinishDrag(d: Drag, b: Board, rows: int, cols: int, newId: Id): Board
  {
    match d
    case DrawBoxDrag(start, current) =>
      Board(b.boxes + [DrawnBox(start, current, rows, cols, newId)], b.texts, [Selection(BoxKind, newId)])
    case MoveDrag(start, current, _, originBoxes, originTexts) =>
      var dx, dy := current.x - start.x, current.y - start.y;
      if dx == 0 && dy == 0 then b
      else Board(DragBoxes(b.boxes, originBoxes, dx, dy, rows, cols), DragTexts(b.texts, originTexts, dx, dy, rows, cols), b.selected)
    case MarqueeDrag(start, current) =>
      Board(b.boxes, b.texts, MarqueeSelection(b.boxes, b.texts, RectFromCells(start, current)))
    case ResizeDrag(_, current, id, handle, origin) =>
      Board(ReplaceBox(b.boxes, id, ResizeBox(origin, handle, current, rows, cols)), b.texts, b.selected)
  }

  // ---------------------------------------------------------------------------
  // Text-edit commit

  /** The characters `/[\r\n]/` does not match. */
  predicate NotLineBreak(c: char)
  {
    c != '\r' && c != '\n'
  }

  /** `value.replace(/[\r\n]/g, '')`. */
  function StripLineBreaks(s: string): (r: string)
    ensures '\r' !in r && '\n' !in r
    ensures forall c :: c in r <==> c in s && c != '\r' && c != '\n'
    ensures '\r' !in s && '\n' !in s ==> r == s
  {
    if '\r' !in s && '\n' !in s then
      FilterKeepsAll(s, NotLineBreak);
      Filter(s, NotLineBreak)
    else
      Filter(s, NotLineBreak)
  }

  /** Stripping works piecewise, so the kept characters stay in order with their multiplicity. */
  lemma StripLineBreaksAppend(a: string, b: string)
    ensures StripLineBreaks(a + b) == StripLineBreaks(a) + StripLineBreaks(b)
  {
    FilterAppend(a, b, NotLineBreak);
  }

  /** The `t => t.id === id` test of `findIndex`. */
  function HasId(id: Id): TextItem -> bool
  {
    (t: TextItem) => t.id == id
  }

  /** Replace the first text with the entry's id in place, or append the entry. */
  function Upsert(prev: seq<TextItem>, entry: TextItem): seq<TextItem>
  {
    var idx := FindIndex(prev, HasId(entry.id));
    if idx == -1 then prev + [entry] else prev[idx := entry]
  }

  /**
   * Upsert either appends the entry, when no text has its id, or replaces the
   * first text with that id at the same index; nothing else changes.
   */
  lemma UpsertSpec(prev: seq<TextItem>, entry: TextItem)
    ensures var r := Upsert(prev, entry);
      && ((forall i :: 0 <= i < |prev| ==> prev[i].id != entry.id) ==> r == prev + [entry])
      && (forall k :: 0 <= k < |prev| && prev[k].id == entry.id && (forall i :: 0 <= i < k ==> prev[i].id != entry.id) ==>
            |r| == |prev| && r[k] == entry && forall i :: 0 <= i < |prev| && i != k ==> r[i] == prev[i])
  {
  }

  /** Committing the same entry twice is the same as committing it once. */
  lemma UpsertIdempotent(prev: seq<TextItem>, entry: TextItem)
    ensures Upsert(Upsert(prev, entry), entry) == Upsert(prev, entry)
  {
    var once := Upsert(prev, entry);
    var idx := FindIndex(prev, HasId(entry.id));
    var k := FindIndex(once, HasId(entry.id));
    if idx == -1 {
      assert HasId(entry.id)(once[|prev|]);
      assert forall i :: 0 <= i < |prev| ==> once[i] == prev[i];
      assert k == |prev|;
    } else {
      assert HasId(entry.id)(once[idx]);
      assert forall i :: 0 <= i < idx ==> once[i] == prev[i];
      assert k == idx;
    }
  }

  /**
   * The edit the text tool opens on a click: the text under the cell if there
   * is one (`id || uid()` keeps its id unless that is empty), otherwise a new,
   * empty text at the cell.
   */
  function TextEditAt(boxes: seq<Box>, texts: seq<TextItem>, cell: Cell, newId: Id): Option<EditState>
  {
    var hit := HitTest(boxes, texts, cell);
    if hit.Some? && hit.value.kind == TextKind then
      match Find(texts, HasId(hit.value.id))
      case Some(t) => Some(EditState(if t.id == [] then newId else t.id, t.x, t.y, t.value, false))
      case None => None
    else Some(EditState(newId, cell.x, cell.y, [], true))
  }

  /**
   * Clicking a text opens it for editing where it stands, with its current
   * value; clicking anywhere else opens a new, empty text at the clicked cell.
   */
  lemma TextEditAtSpec(boxes: seq<Box>, texts: seq<TextItem>, cell: Cell, newId: Id)
    ensures var e := TextEditAt(boxes, texts, cell, newId);
      && ((forall i :: 0 <= i < |texts| ==> !TextHit(texts[i], cell)) ==>
            e == Some(EditState(newId, cell.x, cell.y, [], true)))
      && ((exists i :: 0 <= i < |texts| && TextHit(texts[i], cell)) ==>
            e.Some? && !e.value.isNew
            && exists t :: t in texts && t.id == HitTest(boxes, texts, cell).value.id
                 && e.value.x == t.x && e.value.y == t.y && e.value.value == t.value
                 && (t.id != [] ==> e.value.id == t.id))
  {
    HitTestSpec(boxes, texts, cell);
    var hit := HitTest(boxes, texts, cell);
    if hit.Some? && hit.value.kind == TextKind {
      var i := LastTextHit(texts, cell);
      assert HasId(hit.value.id)(texts[i]);
    }
  }

  /** What `commitTextEdit` does to the texts and the selection. */
  datatype Committed = Committed(texts: seq<TextItem>, selected: seq<Selection>)

  /**
   * `commitTextEdit` with an open edit: line breaks are stripped; an all-white-space
   * value changes neither the texts nor the selection; anything else is upserted
   * and becomes the only selection.
   */
  function CommitEdit(texts: seq<TextItem>, selected: seq<Selection>, ed: EditState): Committed
  {
    var v := StripLineBreaks(ed.value);
    if Trim(v) == [] then Committed(texts, selected)
    else Committed(Upsert(texts, TextItem(ed.id, ed.x, ed.y, v)), [Selection(TextKind, ed.id)])
  }

  /** A commit of an edit at a valid position keeps the texts valid. */
  lemma CommitEditKeepsOk(texts: seq<TextItem>, selected: seq<Selection>, ed: EditState)
    requires TextsOk(texts) && ed.x >= 0 && ed.y >= 0
    ensures TextsOk(CommitEdit(texts, selected, ed).texts)
  {
    var v := StripLineBreaks(ed.value);
    UpsertKeepsOk(texts, TextItem(ed.id, ed.x, ed.y, v));
  }

  lemma UpsertKeepsOk(prev: seq<TextItem>, e: TextItem)
    requires TextsOk(prev) && TextOk(e)
    ensures TextsOk(Upsert(prev, e))
  {
    var r := Upsert(prev, e);
    var idx := FindIndex(prev, HasId(e.id));
    forall i | 0 <= i < |r| ensures TextOk(r[i]) {
      if idx == -1 {
        assert r == prev + [e];
        if i < |prev| {
          assert r[i] == prev[i];
        }
      } else {
        assert r == prev[idx := e];
        if i != idx {
          assert r[i] == prev[i];
        }
      }
    }
  }

  /**
   * A committed text never holds a line break; it is stored, with its id, at
   * the edit's cell; a blank edit is dropped, which is how a blank new text
   * disappears and how an existing text survives being blanked.
   */
  lemma CommitEditSpec(texts: seq<TextItem>, selected: seq<Selection>, ed: EditState)
    ensures var c := CommitEdit(texts, selected, ed);
      var v := StripLineBreaks(ed.value);
      && (AllSpace(v) ==> c == Committed(texts, selected))
      && (!AllSpace(v) ==>
            && c.selected == [Selection(TextKind, ed.id)]
            && TextItem(ed.id, ed.x, ed.y, v) in c.texts
            && (forall t :: t in c.texts ==> t in texts || t == TextItem(ed.id, ed.x, ed.y, v))
            && |texts| <= |c.texts| <= |texts| + 1)
  {
    var v := StripLineBreaks(ed.value);
    TrimEmptyIff(v);
    if !AllSpace(v) {
      var e := TextItem(ed.id, ed.x, ed.y, v);
      var idx := FindIndex(texts, HasId(e.id));
      if idx == -1 {
        assert Upsert(texts, e) == texts + [e];
      } else {
        assert Upsert(texts, e) == texts[idx := e];
        assert Upsert(texts, e)[idx] == e;
      }
    }
  }
}
