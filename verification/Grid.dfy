/** Where the cells of row-major grids lie in a flat buffer. */
module Grid {
  /** The index of a cell of a row-major block: base + row * width + col. */
  function At(base: nat, width: nat, row: nat, col: nat): (r: nat)
    ensures r >= base + col
  {
    if row == 0 then base + col else At(base, width, row - 1, col) + width
  }

  lemma {:induction false} AtIs(base: nat, width: nat, row: nat, col: nat)
    ensures At(base, width, row, col) == base + row * width + col
  {
    if row > 0 {
      AtIs(base, width, row - 1, col);
    }
  }

  lemma {:induction false} AtOrder(base: nat, width: nat, r: nat, c: nat, r': nat, c': nat)
    requires r < r' && c < width && c' < width
    ensures At(base, width, r, c) < At(base, width, r', c')
    decreases r'
  {
    if r + 1 < r' {
      AtOrder(base, width, r, c, r' - 1, c');
    } else {
      AtCol(base, width, r, c);
      AtCol(base, width, r, c');
    }
  }

  lemma {:induction false} AtCol(base: nat, width: nat, r: nat, c: nat)
    ensures At(base, width, r, c) == At(base, width, r, 0) + c
    ensures At(base, width, r + 1, c) == At(base, width, r, c) + width
  {
    if r > 0 {
      AtCol(base, width, r - 1, c);
    }
  }

  /** Cells that differ in row or column do not share an index. */
  lemma AtDiffers(base: nat, width: nat, row: nat, col: nat)
    requires col < width
    ensures forall r: nat, c: nat {:trigger At(base, width, r, c)} ::
              c < width && (r != row || c != col) ==> At(base, width, r, c) != At(base, width, row, col)
  {
    forall r: nat, c: nat | c < width && (r != row || c != col)
      ensures At(base, width, r, c) != At(base, width, row, col)
    {
      if r < row {
        AtOrder(base, width, r, c, row, col);
      } else if row < r {
        AtOrder(base, width, row, col, r, c);
      } else {
        AtCol(base, width, row, c);
        AtCol(base, width, row, col);
      }
    }
  }

  /** The cells of the first `rows` rows lie between the block's start and the next row's. */
  lemma AtInside(base: nat, width: nat, rows: nat, row: nat, col: nat)
    requires row < rows && col < width
    ensures base <= At(base, width, row, col) < At(base, width, rows, 0)
    ensures At(base, width, row, 0) + width <= At(base, width, rows, 0)
  {
    AtOrder(base, width, row, width - 1, rows, 0);
    AtCol(base, width, row, width - 1);
    AtCol(base, width, row, col);
  }
}
