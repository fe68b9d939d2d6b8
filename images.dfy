/** Placement of the card images of one page (`place_card_images`,
    src/main.rs:63-85): every image is resized to the card cell and overlaid
    on the canvas in row-major order, left to right and then top to bottom. */
module Images {
  import opened Prelude
  import opened Geometry
  import opened Raster

  /** Left edge of the cells in column `col`, written as the source writes it. */
  function SlotX(g: PageGeometry, col: nat): nat {
    g.marginLeft + col * g.cellWidth + col * g.paddingRight
  }

  /** Top edge of the cells in row `row`. */
  function SlotY(g: PageGeometry, row: nat): nat {
    g.marginTop + row * g.cellHeight + row * g.paddingBottom
  }

  /** The grid slot of the `k`-th card of a page. */
  function Row(g: PageGeometry, k: nat): nat
    requires g.cols >= 1
  {
    k / g.cols
  }

  function Col(g: PageGeometry, k: nat): (c: nat)
    requires g.cols >= 1
    ensures c < g.cols
  {
    k % g.cols
  }

  /** The overlay of the `k`-th image of a page. */
  function CellOp<T>(img: T, k: nat, g: PageGeometry): Op<T>
    requires g.cols >= 1
  {
    Overlay(Resized(img, g.cellWidth, g.cellHeight), SlotX(g, Col(g, k)), SlotY(g, Row(g, k)))
  }

  /** What placing `imgs` draws: one overlay per image, the `k`-th at the slot
      that `k` names. */
  function ImageOps<T>(imgs: seq<T>, g: PageGeometry): (ops: seq<Op<T>>)
    requires g.cols >= 1
    ensures |ops| == |imgs|
  {
    seq(|imgs|, k requires 0 <= k < |imgs| => CellOp(imgs[k], k, g))
  }

  /** The loop of src/main.rs:64-83: the column counter runs up to the
      number of columns and then wraps to the next row. */
  method PlaceCardImages<T>(base: Canvas<T>, imgs: seq<T>, g: PageGeometry)
    requires g.WellShaped()
    modifies base
    ensures base.ops == old(base.ops) + ImageOps(imgs, g)
  {
    var imgRowCount, imgColCount := 0, 0;
    for k := 0 to |imgs|
      invariant imgColCount == Col(g, k) && imgRowCount == Row(g, k)
      invariant base.ops == old(base.ops) + ImageOps(imgs[..k], g)
    {
      var resized := Resized(imgs[k], g.cellWidth, g.cellHeight);
      var xPos := g.marginLeft + imgColCount * g.cellWidth + imgColCount * g.paddingRight;
      var yPos := g.marginTop + imgRowCount * g.cellHeight + imgRowCount * g.paddingBottom;
      base.Overlay(resized, xPos, yPos);
      assert ImageOps(imgs[..k + 1], g) == ImageOps(imgs[..k], g) + [CellOp(imgs[k], k, g)];
      CountersStep(g, k, imgRowCount, imgColCount);
      imgColCount := imgColCount + 1;
      if imgColCount == g.cols {
        imgColCount := 0;
        imgRowCount := imgRowCount + 1;
      }
    }
    assert imgs[..|imgs|] == imgs;
  }

  /** One step of the row/column counters moves from slot `k` to slot `k + 1`. */
  lemma CountersStep(g: PageGeometry, k: nat, row: nat, col: nat)
    requires g.cols >= 1
    requires row == Row(g, k) && col == Col(g, k)
    ensures col + 1 < g.cols ==> Row(g, k + 1) == row && Col(g, k + 1) == col + 1
    ensures col + 1 == g.cols ==> Row(g, k + 1) == row + 1 && Col(g, k + 1) == 0
  {
    DivModUnique(k, g.cols, row, col);
    if col + 1 < g.cols {
      DivModUnique(k + 1, g.cols, row, col + 1);
    } else {
      DivModUnique(k + 1, g.cols, row + 1, 0);
    }
  }

  /** Quotient and remainder are the only pair with `n == q * d + r` and `r < d`. */
  lemma DivModUnique(n: nat, d: nat, q: nat, r: nat)
    requires 0 <= r < d
    requires n == q * d + r
    ensures n / d == q && n % d == r
  {
    var q', r' := n / d, n % d;
    assert q' * d + r' == q * d + r;
    if q' < q {
      MulMonotone(q' + 1, q, d);
      assert false;
    } else if q < q' {
      MulMonotone(q + 1, q', d);
      assert false;
    }
  }

  /** The grid is a bijection between the indices below the capacity and the
      slots (row, column) of the page, with `index == row * cols + col`. */
  lemma GridBijection(g: PageGeometry, k: nat, row: nat, col: nat)
    requires g.cols >= 1
    requires row < g.rows && col < g.cols
    ensures k < g.Capacity() ==> Row(g, k) < g.rows
    ensures k == row * g.cols + col <==> Row(g, k) == row && Col(g, k) == col
    ensures row * g.cols + col < g.Capacity()
  {
    if k == row * g.cols + col {
      DivModUnique(k, g.cols, row, col);
    }
    if k < g.Capacity() && Row(g, k) >= g.rows {
      MulMonotone(g.rows, Row(g, k), g.cols);
      assert false;
    }
    MulMonotone(row + 1, g.rows, g.cols);
  }

  /** Row-major fill: a later index is in a later row, or further right in
      the same row. */
  lemma RowMajorOrder(g: PageGeometry, j: nat, k: nat)
    requires g.cols >= 1
    requires j < k
    ensures Row(g, j) < Row(g, k) || (Row(g, j) == Row(g, k) && Col(g, j) < Col(g, k))
  {
    if Row(g, k) < Row(g, j) {
      MulMonotone(Row(g, k) + 1, Row(g, j), g.cols);
      assert false;
    }
  }

  /** Columns further right start at least one cell width plus a padding
      further right. */
  lemma SlotXMonotone(g: PageGeometry, a: nat, b: nat)
    requires a < b
    ensures SlotX(g, a) + g.cellWidth + g.paddingRight <= SlotX(g, b)
  {
    assert b * g.cellWidth >= (a + 1) * g.cellWidth;
    assert b * g.paddingRight >= (a + 1) * g.paddingRight;
  }

  lemma SlotYMonotone(g: PageGeometry, a: nat, b: nat)
    requires a < b
    ensures SlotY(g, a) + g.cellHeight + g.paddingBottom <= SlotY(g, b)
  {
    assert b * g.cellHeight >= (a + 1) * g.cellHeight;
    assert b * g.paddingBottom >= (a + 1) * g.paddingBottom;
  }

  /** The cells of two different indices do not overlap: one lies wholly to
      the left of the other, or wholly above it. */
  lemma CellsDisjoint(g: PageGeometry, j: nat, k: nat)
    requires g.cols >= 1
    requires j != k
    ensures || SlotX(g, Col(g, j)) + g.cellWidth <= SlotX(g, Col(g, k))
            || SlotX(g, Col(g, k)) + g.cellWidth <= SlotX(g, Col(g, j))
            || SlotY(g, Row(g, j)) + g.cellHeight <= SlotY(g, Row(g, k))
            || SlotY(g, Row(g, k)) + g.cellHeight <= SlotY(g, Row(g, j))
  {
    if j < k {
      RowMajorOrder(g, j, k);
    } else {
      RowMajorOrder(g, k, j);
    }
    var cj, ck, rj, rk := Col(g, j), Col(g, k), Row(g, j), Row(g, k);
    if cj < ck {
      SlotXMonotone(g, cj, ck);
    } else if ck < cj {
      SlotXMonotone(g, ck, cj);
    } else if rj < rk {
      SlotYMonotone(g, rj, rk);
    } else {
      SlotYMonotone(g, rk, rj);
    }
  }

  /** Every cell of a full page lies inside the page, within its margins. */
  lemma CellInsidePage(g: PageGeometry, k: nat)
    requires g.WellShaped()
    requires k < g.Capacity()
    ensures g.marginLeft <= SlotX(g, Col(g, k))
    ensures SlotX(g, Col(g, k)) + g.cellWidth + g.marginLeft <= g.width
    ensures g.marginTop <= SlotY(g, Row(g, k))
    ensures SlotY(g, Row(g, k)) + g.cellHeight + g.marginTop <= g.height
  {
    GridBijection(g, k, 0, 0);
    ColumnInsidePage(g, Col(g, k));
    RowInsidePage(g, Row(g, k));
  }

  lemma ColumnInsidePage(g: PageGeometry, c: nat)
    requires g.WellShaped() && c < g.cols
    ensures g.marginLeft <= SlotX(g, c) && SlotX(g, c) + g.cellWidth + g.marginLeft <= g.width
  {
    var last := g.cols - 1;
    MulPredecessor(g.cols, g.cellWidth);
    assert SlotX(g, last) + g.cellWidth + g.marginLeft <= g.width;
    if c < last {
      SlotXMonotone(g, c, last);
    }
  }

  lemma RowInsidePage(g: PageGeometry, r: nat)
    requires g.WellShaped() && r < g.rows
    ensures g.marginTop <= SlotY(g, r) && SlotY(g, r) + g.cellHeight + g.marginTop <= g.height
  {
    var last := g.rows - 1;
    MulPredecessor(g.rows, g.cellHeight);
    MulPredecessor(g.rows, g.paddingBottom);
    assert SlotY(g, last) + g.cellHeight + g.marginTop <= g.height;
    if r < last {
      SlotYMonotone(g, r, last);
    }
  }

  /** What `PlaceCardImages` draws for a page that is not over-full: the
      image at slot (row, col) is the one with index `row * cols + col`,
      resized to the cell. `CellsDisjoint` and `CellInsidePage` show that no
      two of the cells overlap and that none leaves the page. */
  lemma PlacementOnGrid<T>(imgs: seq<T>, g: PageGeometry, row: nat, col: nat)
    requires g.cols >= 1
    requires row < g.rows && col < g.cols && row * g.cols + col < |imgs|
    ensures ImageOps(imgs, g)[row * g.cols + col]
         == Overlay(Resized(imgs[row * g.cols + col], g.cellWidth, g.cellHeight), SlotX(g, col), SlotY(g, row))
  {
    GridBijection(g, row * g.cols + col, row, col);
  }
}
