/**
 * Cells, rectangles and shapes of the ASCII Wireframer, and the pure geometry
 * helpers `clamp`, `rectFromCells` and `resizeBox`.
 */
module WireGeometry {

  /** Shape identities come from `uid()`; the model only compares them. */
  type Id = string

  datatype Cell = Cell(x: int, y: int)

  datatype Rect = Rect(x: int, y: int, w: int, h: int)

  datatype Box = Box(id: Id, x: int, y: int, w: int, h: int)

  datatype TextItem = TextItem(id: Id, x: int, y: int, value: string)

  datatype Handle = NW | NE | SW | SE

  /** `Math.max(lo, Math.min(hi, n))`: when the range is empty, `lo` wins. */
  function Clamp(n: int, lo: int, hi: int): (r: int)
    ensures lo <= hi ==> lo <= r <= hi
    ensures hi < lo ==> r == lo
    ensures lo <= n <= hi ==> r == n
    ensures n < lo ==> r == lo
    ensures lo <= hi < n ==> r == hi
  {
    var m := if hi < n then hi else n;
    if lo > m then lo else m
  }

  predicate CellInGrid(c: Cell, rows: int, cols: int)
  {
    0 <= c.x < cols && 0 <= c.y < rows
  }

  /** A box with positive size lying entirely within `[0, cols-1] x [0, rows-1]`. */
  predicate BoxInGrid(b: Box, rows: int, cols: int)
  {
    b.w >= 1 && b.h >= 1 && 0 <= b.x && b.x + b.w <= cols && 0 <= b.y && b.y + b.h <= rows
  }

  /** `rectFromCells`: the smallest rectangle holding both cells, whatever the drag direction. */
  function RectFromCells(a: Cell, b: Cell): (r: Rect)
    ensures r.w >= 1 && r.h >= 1
    ensures r.x <= a.x < r.x + r.w && r.x <= b.x < r.x + r.w
    ensures r.y <= a.y < r.y + r.h && r.y <= b.y < r.y + r.h
    ensures (r.x == a.x || r.x == b.x) && (r.x + r.w - 1 == a.x || r.x + r.w - 1 == b.x)
    ensures (r.y == a.y || r.y == b.y) && (r.y + r.h - 1 == a.y || r.y + r.h - 1 == b.y)
  {
    var x1 := if a.x < b.x then a.x else b.x;
    var y1 := if a.y < b.y then a.y else b.y;
    var x2 := if a.x > b.x then a.x else b.x;
    var y2 := if a.y > b.y then a.y else b.y;
    Rect(x1, y1, x2 - x1 + 1, y2 - y1 + 1)
  }

  /**
   * `resizeBox`: the handle's corner follows the pointer, clamped into the grid
   * and kept from crossing the opposite corner, which stays where it was.
   */
  function ResizeBox(origin: Box, handle: Handle, cell: Cell, rows: int, cols: int): (r: Box)
    ensures r.id == origin.id
    ensures handle == NW ==> r.x + r.w == origin.x + origin.w && r.y + r.h == origin.y + origin.h
    ensures handle == NE ==> r.x == origin.x && r.y + r.h == origin.y + origin.h
    ensures handle == SW ==> r.x + r.w == origin.x + origin.w && r.y == origin.y
    ensures handle == SE ==> r.x == origin.x && r.y == origin.y
    // never empty, as long as the origin's far corner is not left of or above the grid
    ensures origin.x + origin.w - 1 >= 0 && origin.y + origin.h - 1 >= 0 ==> r.w >= 1 && r.h >= 1
    ensures origin.x >= 0 && origin.y >= 0 ==> r.x >= 0 && r.y >= 0
    ensures BoxInGrid(origin, rows, cols) ==> BoxInGrid(r, rows, cols)
    // within the region the handle may reach, the dragged corner lands on the pointer's cell
    ensures BoxInGrid(origin, rows, cols) && CellInGrid(cell, rows, cols) ==>
      && (handle in {NW, SW} && cell.x <= origin.x + origin.w - 1 ==> r.x == cell.x)
      && (handle in {NE, SE} && cell.x >= origin.x ==> r.x + r.w - 1 == cell.x)
      && (handle in {NW, NE} && cell.y <= origin.y + origin.h - 1 ==> r.y == cell.y)
      && (handle in {SW, SE} && cell.y >= origin.y ==> r.y + r.h - 1 == cell.y)
  {
    var x0 := origin.x;
    var y0 := origin.y;
    var x1 := origin.x + origin.w - 1;
    var y1 := origin.y + origin.h - 1;
    match handle
    case NW =>
      var nx0 := Clamp(cell.x, 0, x1);
      var ny0 := Clamp(cell.y, 0, y1);
      origin.(x := nx0, y := ny0, w := x1 - nx0 + 1, h := y1 - ny0 + 1)
    case NE =>
      var nx1 := Clamp(cell.x, x0, cols - 1);
      var ny0 := Clamp(cell.y, 0, y1);
      origin.(x := x0, y := ny0, w := nx1 - x0 + 1, h := y1 - ny0 + 1)
    case SW =>
      var nx0 := Clamp(cell.x, 0, x1);
      var ny1 := Clamp(cell.y, y0, rows - 1);
      origin.(x := nx0, y := y0, w := x1 - nx0 + 1, h := ny1 - y0 + 1)
    case SE =>
      var nx1 := Clamp(cell.x, x0, cols - 1);
      var ny1 := Clamp(cell.y, y0, rows - 1);
      origin.(x := x0, y := y0, w := nx1 - x0 + 1, h := ny1 - y0 + 1)
  }
}
