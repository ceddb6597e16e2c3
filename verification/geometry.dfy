/**
  Grid cells and offsets between them. A cell is an (x, y) pair with x
  growing to the right and y growing upwards, so the cell above a cell is
  one row up.
 */
module Geometry {

  datatype Cell = Cell(x: int, y: int)

  datatype CellOffset = CellOffset(x: int, y: int)

  /** Grid.GetOffset(from, to): the offset leading from `from` to `to`,
      taken componentwise as `to - from`. */
  function GetOffset(from: Cell, to: Cell): CellOffset
  {
    CellOffset(to.x - from.x, to.y - from.y)
  }

  /** Grid.OffsetCell(cell, offset): the cell reached from `c` by `o`. */
  function OffsetCell(c: Cell, o: CellOffset): (r: Cell)
    ensures GetOffset(c, r) == o
  {
    Cell(c.x + o.x, c.y + o.y)
  }

  /** Grid.CellAbove(cell). */
  function CellAbove(c: Cell): (r: Cell)
    ensures GetOffset(c, r) == CellOffset(0, 1)
  {
    Cell(c.x, c.y + 1)
  }
}
