/** Row-major grids: the correspondence between cells and indices. */
module Grid {
  import opened Arithmetic

  datatype Cell = Cell(x: int, y: int)

  /** The cell stored at index `i` of a row-major grid of width `w`. */
  function CellAt(i: int, w: nat): Cell
    requires w > 0
  {
    Cell(i % w, i / w)
  }

  predicate InGrid(c: Cell, w: nat, h: nat) {
    0 <= c.x < w && 0 <= c.y < h
  }

  function Index(c: Cell, w: nat): int {
    c.y * w + c.x
  }

  lemma IndexRoundTrip(c: Cell, w: nat, h: nat)
    requires InGrid(c, w, h)
    ensures 0 <= Index(c, w) < w * h
    ensures CellAt(Index(c, w), w) == c
  {
    MulMonotone(c.y + 1, h, w, w);
    assert (c.y + 1) * w == c.y * w + w;
    MulMonotone(0, c.y, w, w);
    DivUnique(Index(c, w), w, c.y, c.x);
  }

  lemma CellRoundTrip(i: int, w: nat, h: nat)
    requires w > 0 && 0 <= i < w * h
    ensures InGrid(CellAt(i, w), w, h)
    ensures Index(CellAt(i, w), w) == i
  {
    assert i == w * (i / w) + i % w;
    DivBelow(i, w, h);
  }
}
