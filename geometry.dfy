/** Page geometry: the layout constants that `src/main.rs` derives at
    compile time from the page size and the grid shape. The floating-point
    fractions of the source (0.08, 0.07, 0.08 and the card aspect 889/635)
    become exact integer floor divisions. */
module Geometry {
  import opened Prelude

  /** The four configuration values every other constant is derived from. */
  datatype Config = Config(width: nat, height: nat, rows: nat, cols: nat)

  /** The source's defaults: an A3 page at 300 dpi and a grid of 3 rows of 4 cards. */
  const Default: Config := Config(3508, 4961, 3, 4)

  datatype PageGeometry = PageGeometry(
    width: nat, height: nat, rows: nat, cols: nat,
    marginTop: nat, marginLeft: nat, paddingRight: nat,
    cellWidth: nat, cellHeight: nat, paddingBottom: nat)
  {
    function Configuration(): Config {
      Config(width, height, rows, cols)
    }

    /** The geometry is the one derived from its own configuration. */
    predicate Valid() {
      Admissible(Configuration()) && this == Compute(Configuration())
    }

    /** The facts about a geometry that the placement proofs use: a
        non-empty grid whose cells, margins and paddings fit the page. */
    predicate WellShaped() {
      && rows >= 1 && cols >= 1
      && 2 * marginLeft + cols * cellWidth + (cols - 1) * paddingRight <= width
      && 2 * marginTop + rows * cellHeight + rows * paddingBottom <= height
    }

    /** Cards per page. */
    function Capacity(): (n: nat)
      ensures rows >= 1 && cols >= 1 ==> n >= rows && n >= cols
    {
      if rows >= 1 && cols >= 1 then
        MulMonotone(1, cols, rows);
        MulMonotone(1, rows, cols);
        rows * cols
      else
        rows * cols
    }
  }

  function MarginTop(height: nat): nat { height * 8 / 100 }
  function MarginLeft(width: nat): nat { width * 7 / 100 }
  function PaddingRight(width: nat): nat { width * 8 / 100 }
  function CellHeightOf(cellWidth: nat): nat { cellWidth * 889 / 635 }

  /** The horizontal space the margins and paddings take. */
  function HorizontalGaps(c: Config): nat
    requires c.cols >= 1
  {
    2 * MarginLeft(c.width) + (c.cols - 1) * PaddingRight(c.width)
  }

  function CellWidthOf(c: Config): nat
    requires c.cols >= 1 && HorizontalGaps(c) <= c.width
  {
    DivisionBounds(c.width - HorizontalGaps(c), c.cols);
    (c.width - HorizontalGaps(c)) / c.cols
  }

  /** The conditions under which Rust's constant evaluation accepts the
      constants: every value is a `u32`, no subtraction underflows and no
      division is by zero. A configuration outside them does not compile.
      One conjunct is not about a constant: the cards-per-page product
      `rows * cols`, which `main` computes at src/main.rs:179, must also
      fit in a `u32`. */
  predicate Admissible(c: Config) {
    && IsU32(c.width) && IsU32(c.height)
    && 1 <= c.rows && 1 <= c.cols && IsU32(c.rows * c.cols)
    && HorizontalGaps(c) <= c.width
    && 2 * MarginTop(c.height) + c.rows * CellHeightOf(CellWidthOf(c)) <= c.height
  }

  /** The vertical padding: the height left after the margins and the cells,
      shared equally between the rows. */
  function PaddingBottomOf(c: Config): nat
    requires Admissible(c)
  {
    var free := c.height - 2 * MarginTop(c.height) - c.rows * CellHeightOf(CellWidthOf(c));
    DivisionBounds(free, c.rows);
    free / c.rows
  }

  /** The derivation at src/main.rs:29-39. The ensures clauses say what the
      floor divisions leave: the grid fits the page, and what is left over is
      less than one unit per cell; the cell keeps the 889:635 aspect to within
      one pixel. */
  function Compute(c: Config): (g: PageGeometry)
    requires Admissible(c)
    ensures g.Configuration() == c
    ensures 100 * g.marginTop <= 8 * c.height < 100 * g.marginTop + 100
    ensures 100 * g.marginLeft <= 7 * c.width < 100 * g.marginLeft + 100
    ensures 100 * g.paddingRight <= 8 * c.width < 100 * g.paddingRight + 100
    ensures 635 * g.cellHeight <= 889 * g.cellWidth < 635 * g.cellHeight + 635
    ensures 2 * g.marginLeft + c.cols * g.cellWidth + (c.cols - 1) * g.paddingRight <= c.width
    ensures c.width < 2 * g.marginLeft + c.cols * g.cellWidth + c.cols + (c.cols - 1) * g.paddingRight
    ensures 2 * g.marginTop + c.rows * g.cellHeight + c.rows * g.paddingBottom <= c.height
    ensures c.height < 2 * g.marginTop + c.rows * g.cellHeight + c.rows * g.paddingBottom + c.rows
  {
    var cw := CellWidthOf(c);
    MarginBounds(c);
    AspectBounds(cw);
    WidthFit(c);
    HeightFit(c);
    PageGeometry(c.width, c.height, c.rows, c.cols,
      MarginTop(c.height), MarginLeft(c.width), PaddingRight(c.width),
      cw, CellHeightOf(cw), PaddingBottomOf(c))
  }

  /** Floor division, stated as the bounds it satisfies. */
  lemma DivisionBounds(a: nat, d: nat)
    requires d >= 1
    ensures 0 <= a / d <= a
    ensures d * (a / d) <= a < d * (a / d) + d
  {
  }

  lemma MarginBounds(c: Config)
    ensures 100 * MarginTop(c.height) <= 8 * c.height < 100 * MarginTop(c.height) + 100
    ensures 100 * MarginLeft(c.width) <= 7 * c.width < 100 * MarginLeft(c.width) + 100
    ensures 100 * PaddingRight(c.width) <= 8 * c.width < 100 * PaddingRight(c.width) + 100
  {
    DivisionBounds(c.height * 8, 100);
    DivisionBounds(c.width * 7, 100);
    DivisionBounds(c.width * 8, 100);
  }

  lemma AspectBounds(cw: nat)
    ensures 635 * CellHeightOf(cw) <= 889 * cw < 635 * CellHeightOf(cw) + 635
  {
    DivisionBounds(cw * 889, 635);
  }

  /** The columns, their paddings and the two margins fill the width up to
      less than one pixel per column. */
  lemma WidthFit(c: Config)
    requires c.cols >= 1 && HorizontalGaps(c) <= c.width
    ensures var ml, pr, cw := MarginLeft(c.width), PaddingRight(c.width), CellWidthOf(c);
      2 * ml + c.cols * cw + (c.cols - 1) * pr <= c.width < 2 * ml + c.cols * cw + c.cols + (c.cols - 1) * pr
  {
    DivisionBounds(c.width - HorizontalGaps(c), c.cols);
  }

  /** The rows, their paddings and the two margins fill the height up to
      less than one pixel per row. */
  lemma HeightFit(c: Config)
    requires Admissible(c)
    ensures var mt, ch, pb := MarginTop(c.height), CellHeightOf(CellWidthOf(c)), PaddingBottomOf(c);
      2 * mt + c.rows * ch + c.rows * pb <= c.height < 2 * mt + c.rows * ch + c.rows * pb + c.rows
  {
    var free := c.height - 2 * MarginTop(c.height) - c.rows * CellHeightOf(CellWidthOf(c));
    DivisionBounds(free, c.rows);
  }

  /** The default configuration gives these constants. */
  lemma DefaultGeometry()
    ensures Admissible(Default)
    ensures Compute(Default) == PageGeometry(3508, 4961, 3, 4, 396, 245, 280, 544, 761, 628)
  {
    assert MarginTop(4961) == 396 && MarginLeft(3508) == 245 && PaddingRight(3508) == 280;
    assert HorizontalGaps(Default) == 1330;
    assert CellWidthOf(Default) == 2178 / 4 == 544;
    assert CellHeightOf(544) == 761;
    assert PaddingBottomOf(Default) == 1886 / 3 == 628;
  }

  /** Every valid geometry has at least one cell, and its constants fit the page. */
  lemma ValidFits(g: PageGeometry)
    requires g.Valid()
    ensures g.WellShaped() && g.Capacity() >= 1
  {
  }
}
