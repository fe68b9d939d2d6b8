/** The three caption lines under every card (`draw_text_to_image`,
    src/main.rs:115-154): the title, the set line and the price line, each
    measured with the font and centred under its cell. The font's metrics
    (`text_size`) are a parameter: a function from a string to its extent. */
module Captions {
  import opened Prelude
  import opened Geometry
  import opened Raster
  import opened Images
  import opened Numerals

  /** One row of the card list (`CSVCard`, src/main.rs:51-61). The euro
      price and the `rwp` column are read but never drawn. */
  datatype Card = Card(
    name: string, condition: string, setCode: string, language: string,
    eur: string, rwp: string, wp: nat, display: Option<string>)

  /** Width and height of a string as the font renders it. */
  datatype Extent = Extent(w: nat, h: nat)

  /** The suffix of the price line (src/main.rs:43). */
  const PointSuffix: string := "WP"

  /** The title: the display override if the row has one, else the card name. */
  function Title(c: Card): string {
    match c.display
    case Some(d) => d
    case None => c.name
  }

  /** `format!("{} ({}) {}", set, language, condition)`. */
  function SetLine(c: Card): string {
    c.setCode + " (" + c.language + ") " + c.condition
  }

  /** `format!("{} {}", wp, WADO_POINT_SUFFIX)`. */
  function PriceLine(wp: nat): string {
    Decimal(wp) + " " + PointSuffix
  }

  // Reading the caption strings back: the partners of the two formatters.

  /** The position of the first `c` in `s`, or `|s|` if there is none. */
  function IndexOf(s: string, c: char): (i: nat)
    ensures i <= |s|
    ensures i < |s| ==> s[i] == c
    ensures forall j :: 0 <= j < i ==> s[j] != c
  {
    if s == [] then 0 else if s[0] == c then 0 else 1 + IndexOf(s[1..], c)
  }

  lemma IndexOfFirst(s: string, c: char, p: nat)
    requires p < |s| && s[p] == c
    requires forall j :: 0 <= j < p ==> s[j] != c
    ensures IndexOf(s, c) == p
  {
  }

  datatype SetFields = SetFields(setCode: string, language: string, condition: string)

  /** Splits a set line at its first `" ("` and the first `") "` after it. */
  function ParseSetLine(s: string): Option<SetFields> {
    var i := IndexOf(s, '(');
    if i == |s| || i == 0 || s[i - 1] != ' ' then None
    else
      var rest := s[i + 1..];
      var j := IndexOf(rest, ')');
      if j + 1 >= |rest| || rest[j + 1] != ' ' then None
      else Some(SetFields(s[..i - 1], rest[..j], rest[j + 2..]))
  }

  /** Everything the parser accepts is a set line of the fields it returns. */
  lemma ParseSetLineSound(s: string, f: SetFields)
    requires ParseSetLine(s) == Some(f)
    ensures f.setCode + " (" + f.language + ") " + f.condition == s
  {
    var i := IndexOf(s, '(');
    var rest := s[i + 1..];
    var j := IndexOf(rest, ')');
    Reassemble(s, i, j);
  }

  /** Cutting `s` around a `" ("` at `i` and a `") "` after it and joining the
      three pieces with those separators again gives `s` back. */
  lemma Reassemble(s: string, i: nat, j: nat)
    requires 1 <= i && i + j + 2 < |s|
    requires s[i - 1] == ' ' && s[i] == '(' && s[i + j + 1] == ')' && s[i + j + 2] == ' '
    ensures s[..i - 1] + " (" + s[i + 1..][..j] + ") " + s[i + 1..][j + 2..] == s
  {
    var code, language, condition := s[..i - 1], s[i + 1..][..j], s[i + 1..][j + 2..];
    var t := code + " (" + language + ") " + condition;
    assert |t| == |s|;
    forall k | 0 <= k < |s| ensures t[k] == s[k] {
      if k < i - 1 {
        assert t[k] == code[k];
      } else if k < i + 1 {
      } else if k < i + 1 + j {
        assert t[k] == language[k - i - 1];
      } else if k < i + j + 3 {
      } else {
        assert t[k] == condition[k - i - j - 3];
      }
    }
  }

  /** The set line gives back its three fields, provided the set code has no
      `(` and the language no `)`. */
  lemma SetLineRoundTrip(c: Card)
    requires '(' !in c.setCode && ')' !in c.language
    ensures ParseSetLine(SetLine(c)) == Some(SetFields(c.setCode, c.language, c.condition))
  {
    var s := SetLine(c);
    var i := |c.setCode| + 1;
    assert s[i] == '(';
    forall j | 0 <= j < i ensures s[j] != '(' {
      if j < |c.setCode| {
        assert s[j] == c.setCode[j];
      }
    }
    IndexOfFirst(s, '(', i);
    var rest := s[i + 1..];
    assert rest == c.language + ") " + c.condition;
    forall j | 0 <= j < |c.language| ensures rest[j] != ')' {
      assert rest[j] == c.language[j];
    }
    IndexOfFirst(rest, ')', |c.language|);
    var j := |c.language|;
    assert rest[j + 1] == ' ' && j + 1 < |rest|;
    assert s[i - 1] == ' ';
    assert s[..i - 1] == c.setCode;
    assert rest[..j] == c.language;
    assert rest[j + 2..] == c.condition;
  }

  /** Reads back a price line: a decimal number, a space and the suffix. */
  function ParsePriceLine(s: string): Option<nat> {
    var n := |PointSuffix| + 1;
    if |s| >= n && s[|s| - n..] == " " + PointSuffix then ParseDecimal(s[..|s| - n]) else None
  }

  lemma PriceLineRoundTrip(wp: nat)
    ensures ParsePriceLine(PriceLine(wp)) == Some(wp)
  {
    var s := PriceLine(wp);
    assert s[..|s| - 3] == Decimal(wp);
    assert s[|s| - 3..] == " " + PointSuffix;
    DecimalRoundTrip(wp);
  }

  /** Everything the price parser accepts is the price line of its number. */
  lemma ParsePriceLineSound(s: string, wp: nat)
    requires ParsePriceLine(s) == Some(wp)
    ensures PriceLine(wp) == s
  {
    var t := s[..|s| - 3];
    DecimalOfDigits(t);
    assert s == t + s[|s| - 3..];
  }

  // Horizontal placement (src/main.rs:127-128, 134, 139, 144).

  /** Left edge of the cells in column `col`, as the caption code writes it. */
  function XStart(g: PageGeometry, col: nat): nat {
    g.marginLeft + col * (g.cellWidth + g.paddingRight)
  }

  /** Centre line of the cells in column `col`. */
  function XCenter(g: PageGeometry, col: nat): nat {
    XStart(g, col) + g.cellWidth / 2
  }

  /** Title offset: centred, but the shift left of the centre is at most
      `xStart`, which keeps the `u32` subtraction from underflowing. It does
      not keep the title from starting left of `xStart`. */
  function TitleX(xStart: nat, xCenter: nat, w: nat): (x: nat)
    requires xStart <= xCenter
    ensures xCenter - xStart <= x <= xCenter
    ensures w / 2 <= xStart ==> x + w / 2 == xCenter
    ensures xStart < w / 2 ==> x == xCenter - xStart
  {
    xCenter - Min(w / 2, xStart)
  }

  /** Set-line offset: centred, with the shift bounded by the centre itself,
      so the line never starts left of the page edge. */
  function SetX(xCenter: nat, w: nat): (x: nat)
    ensures x <= xCenter
    ensures w / 2 <= xCenter ==> x + w / 2 == xCenter
    ensures xCenter < w / 2 ==> x == 0
  {
    xCenter - Min(w / 2, xCenter)
  }

  /** Price offset: centred with no clamp; the `u32` subtraction wraps when
      the half-width exceeds the centre. */
  function PriceX(xCenter: nat, w: nat): (x: nat)
    ensures IsU32(x)
    ensures w / 2 <= xCenter < U32Limit ==> x + w / 2 == xCenter
  {
    WrappingSub(xCenter, w / 2)
  }

  // One cell's captions.

  /** A caption line: its text and the offset passed to `draw_text_mut`. */
  datatype Line = Line(text: string, x: int, y: int)

  datatype Caption = Caption(title: Line, setLine: Line, price: Line)

  /** Top of the first caption line of row `row`: one title height below the
      bottom edge of the card. */
  function YStart(g: PageGeometry, row: nat, h: nat): nat {
    g.marginTop + row * (g.cellHeight + g.paddingBottom) + g.cellHeight + h
  }

  /** The captions of the `k`-th card of a page, as one pass of the loop
      body computes them. All three lines are stacked by the title's height. */
  function CellCaption(card: Card, k: nat, g: PageGeometry, measure: string -> Extent): Caption
    requires g.cols >= 1
  {
    var row, col := Row(g, k), Col(g, k);
    var title, setText, price := Title(card), SetLine(card), PriceLine(card.wp);
    var xStart, xCenter := XStart(g, col), XCenter(g, col);
    var titleSize := measure(title);
    var h := titleSize.h;
    var fontPadding := h / 2;
    var yStart := YStart(g, row, h);
    Caption(
      Line(title, AsI32(TitleX(xStart, xCenter, titleSize.w)), AsI32(yStart)),
      Line(setText, AsI32(SetX(xCenter, measure(setText).w)), AsI32(yStart) + h + fontPadding),
      Line(price, AsI32(PriceX(xCenter, measure(price).w)), AsI32(yStart) + 2 * (fontPadding + h)))
  }

  /** The three drawing calls of one caption, in the order they are made. */
  function CaptionDraws<T>(c: Caption): seq<Op<T>> {
    [Text(c.title.text, c.title.x, c.title.y),
     Text(c.setLine.text, c.setLine.x, c.setLine.y),
     Text(c.price.text, c.price.x, c.price.y)]
  }

  /** What drawing the captions of `cards` puts on the canvas: three lines
      per card, card after card. */
  function CaptionOps<T>(cards: seq<Card>, g: PageGeometry, measure: string -> Extent): (ops: seq<Op<T>>)
    requires g.cols >= 1
    ensures |ops| == 3 * |cards|
    decreases |cards|
  {
    if cards == [] then []
    else CaptionOps(cards[..|cards| - 1], g, measure)
         + CaptionDraws(CellCaption(cards[|cards| - 1], |cards| - 1, g, measure))
  }

  /** Card `k`'s three lines are entries `3k`, `3k+1` and `3k+2`. */
  lemma {:induction false} CaptionOpsAt<T>(cards: seq<Card>, g: PageGeometry, measure: string -> Extent, k: nat)
    requires g.cols >= 1
    requires k < |cards|
    ensures CaptionOps<T>(cards, g, measure)[3 * k..3 * k + 3]
         == CaptionDraws(CellCaption(cards[k], k, g, measure))
    decreases |cards|
  {
    var init := cards[..|cards| - 1];
    if k < |cards| - 1 {
      CaptionOpsAt<T>(init, g, measure, k);
      assert init[k] == cards[k];
    }
  }

  /** The loop of src/main.rs:119-152. The counters `row` and `col` run in
      the same row-major order as in `PlaceCardImages`. */
  method DrawTextToImage<T>(image: Canvas<T>, cards: seq<Card>, g: PageGeometry, measure: string -> Extent)
    requires g.WellShaped()
    modifies image
    ensures image.ops == old(image.ops) + CaptionOps(cards, g, measure)
  {
    var row, col := 0, 0;
    for k := 0 to |cards|
      invariant col == Col(g, k) && row == Row(g, k)
      invariant image.ops == old(image.ops) + CaptionOps(cards[..k], g, measure)
    {
      DrawCardCaption(image, cards[k], k, row, col, g, measure);
      assert cards[..k + 1][..k] == cards[..k];
      CountersStep(g, k, row, col);
      col := col + 1;
      if col == g.cols {
        col := 0;
        row := row + 1;
      }
    }
    assert cards[..|cards|] == cards;
  }

  /** The body of that loop (src/main.rs:123-146): the captions of the `k`-th
      card, which sits at grid slot (`row`, `col`). */
  method DrawCardCaption<T>(image: Canvas<T>, card: Card, ghost k: nat, row: nat, col: nat,
                            g: PageGeometry, measure: string -> Extent)
    requires g.cols >= 1 && row == Row(g, k) && col == Col(g, k)
    modifies image
    ensures image.ops == old(image.ops) + CaptionDraws(CellCaption(card, k, g, measure))
  {
    var title := Title(card);
    var setText := SetLine(card);
    var price := PriceLine(card.wp);

    var xStart := g.marginLeft + col * (g.cellWidth + g.paddingRight);
    var xCenter := xStart + g.cellWidth / 2;

    var titleSize := measure(title);
    var w, h := titleSize.w, titleSize.h;
    var fontPadding := h / 2;
    var yStart := g.marginTop + row * (g.cellHeight + g.paddingBottom) + g.cellHeight + h;
    ghost var c := CellCaption(card, k, g, measure);
    assert xStart == XStart(g, col) && xCenter == XCenter(g, col) && yStart == YStart(g, row, h);
    // Title
    var x := xCenter - Min(w / 2, xStart);
    assert c.title == Line(title, AsI32(x), AsI32(yStart));
    image.DrawText(title, AsI32(x), AsI32(yStart));
    // Set
    w := measure(setText).w;
    x := xCenter - Min(w / 2, xCenter);
    assert c.setLine == Line(setText, AsI32(x), AsI32(yStart) + h + fontPadding);
    image.DrawText(setText, AsI32(x), AsI32(yStart) + h + fontPadding);
    // Price
    w := measure(price).w;
    var priceX := WrappingSub(xCenter, w / 2);
    assert c.price == Line(price, AsI32(priceX), AsI32(yStart) + 2 * (fontPadding + h));
    image.DrawText(price, AsI32(priceX), AsI32(yStart) + 2 * (fontPadding + h));
  }

  // Properties of one cell's captions.

  /** The captions hang off the same cell as the card image of the same
      index: `xStart` is the image's left edge and the first line starts one
      title height below the image's bottom edge. */
  lemma CaptionAnchoredToImage(card: Card, k: nat, g: PageGeometry, measure: string -> Extent)
    requires g.cols >= 1
    ensures XStart(g, Col(g, k)) == SlotX(g, Col(g, k))
    ensures CellCaption(card, k, g, measure).title.y
         == AsI32(SlotY(g, Row(g, k)) + g.cellHeight + measure(Title(card)).h)
  {
    var row, col := Row(g, k), Col(g, k);
    assert col * (g.cellWidth + g.paddingRight) == col * g.cellWidth + col * g.paddingRight;
    assert row * (g.cellHeight + g.paddingBottom) == row * g.cellHeight + row * g.paddingBottom;
  }

  /** The three lines are one pitch apart, the pitch being the title's height
      and a half; with a positive height they go strictly downwards. */
  lemma CaptionStacking(card: Card, k: nat, g: PageGeometry, measure: string -> Extent)
    requires g.cols >= 1
    ensures var c, h := CellCaption(card, k, g, measure), measure(Title(card)).h;
      && c.setLine.y - c.title.y == h + h / 2
      && c.price.y - c.setLine.y == h + h / 2
      && (h > 0 ==> c.title.y < c.setLine.y < c.price.y)
  {
  }

  /** The texts of the three lines: the title is the display override or
      else the name, and the other two read back to the row's fields. */
  lemma CaptionTexts(card: Card, k: nat, g: PageGeometry, measure: string -> Extent)
    requires g.cols >= 1
    ensures var c := CellCaption(card, k, g, measure);
      && (card.display.Some? ==> c.title.text == card.display.value)
      && (card.display.None? ==> c.title.text == card.name)
      && ParsePriceLine(c.price.text) == Some(card.wp)
      && ('(' !in card.setCode && ')' !in card.language ==>
            ParseSetLine(c.setLine.text) == Some(SetFields(card.setCode, card.language, card.condition)))
  {
    if '(' !in card.setCode && ')' !in card.language {
      SetLineRoundTrip(card);
    }
    PriceLineRoundTrip(card.wp);
  }

  /** Where the lines start horizontally, once the centre of the cell is an
      `i32` and the text widths are (as `text_size` returns `i32`): the title
      lies between `xCenter - xStart` and the centre, the set line between the
      page edge and the centre, and the price line is centred exactly, which
      puts it left of the page edge (a negative offset) when it is wider than
      twice the centre. */
  lemma CaptionOffsets(card: Card, k: nat, g: PageGeometry, measure: string -> Extent)
    requires g.cols >= 1
    requires XCenter(g, Col(g, k)) < I32Limit
    requires measure(PriceLine(card.wp)).w < U32Limit
    ensures var c, xStart, xCenter := CellCaption(card, k, g, measure), XStart(g, Col(g, k)), XCenter(g, Col(g, k));
      && xCenter - xStart <= c.title.x <= xCenter
      && 0 <= c.setLine.x <= xCenter
      && c.price.x == xCenter - measure(PriceLine(card.wp)).w / 2
  {
    var xCenter := XCenter(g, Col(g, k));
    var w := measure(PriceLine(card.wp)).w;
    WrapThenCastIsDifference(xCenter, w / 2);
  }

  /** The title clamp bounds the shift by `xStart`, not by half the cell, so a
      title wider than its cell can start left of the cell: with the default
      geometry, a 600-pixel title in the second column starts at 1041 while
      the cell starts at 1069. */
  lemma TitleCanStartLeftOfCell()
    ensures var g := Compute(Default);
      && XStart(g, 1) == 1069
      && TitleX(XStart(g, 1), XCenter(g, 1), 600) == 1041
  {
  }
}
