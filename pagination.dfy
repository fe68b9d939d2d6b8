/** The page loop of `main` (src/main.rs:179-203): the card list is cut into
    pages of `rows * cols` cards, and every page is composed on a fresh
    canvas: the background, then the card images, then the captions. */
module Pagination {
  import opened Prelude
  import opened Geometry
  import opened Raster
  import opened Images
  import opened Captions

  /** `ceil(n / cpp)`: the number of pages for `n` cards (src/main.rs:180). */
  function PageCount(n: nat, cpp: nat): (p: nat)
    requires cpp >= 1
    ensures n <= p * cpp
    ensures p == 0 || (p - 1) * cpp < n
  {
    CeilingBounds(n, cpp);
    (n + cpp - 1) / cpp
  }

  lemma CeilingBounds(n: nat, cpp: nat)
    requires cpp >= 1
    ensures var p := (n + cpp - 1) / cpp; n <= p * cpp && (p == 0 || (p - 1) * cpp < n)
  {
    var p := (n + cpp - 1) / cpp;
    DivModUnique(n + cpp - 1, cpp, p, (n + cpp - 1) % cpp);
    if p >= 1 {
      MulPredecessor(p, cpp);
    }
  }

  /** First card of page `i` (src/main.rs:192). */
  function Lower(i: nat, cpp: nat): nat {
    i * cpp
  }

  /** One past the last card of page `i` (src/main.rs:193-194). */
  function Upper(i: nat, n: nat, cpp: nat): nat {
    Min(i * cpp + cpp, n)
  }

  /** Every page's slice is in bounds and not empty; every page but the
      last is full, and the last one ends at the end of the list. */
  lemma PageBounds(i: nat, n: nat, cpp: nat)
    requires cpp >= 1 && i < PageCount(n, cpp)
    ensures Lower(i, cpp) < Upper(i, n, cpp) <= n
    ensures i + 1 < PageCount(n, cpp) ==> Upper(i, n, cpp) - Lower(i, cpp) == cpp
    ensures i + 1 == PageCount(n, cpp) ==> Upper(i, n, cpp) == n
  {
    var p := PageCount(n, cpp);
    MulMonotone(i, p - 1, cpp);
    MulPredecessor(i + 1, cpp);
    if i + 1 < p {
      MulMonotone(i + 1, p - 1, cpp);
    }
  }

  /** The last page holds the remainder of the division, or a full page
      when the remainder is zero. */
  lemma LastPageSize(n: nat, cpp: nat)
    requires cpp >= 1 && n >= 1
    ensures var i := PageCount(n, cpp) - 1;
      Upper(i, n, cpp) - Lower(i, cpp) == (if n % cpp == 0 then cpp else n % cpp)
  {
    var i := PageCount(n, cpp) - 1;
    PageBounds(i, n, cpp);
    var size := n - i * cpp;
    MulPredecessor(i + 1, cpp);
    if size == cpp {
      DivModUnique(n, cpp, i + 1, 0);
    } else {
      DivModUnique(n, cpp, i, size);
    }
  }

  /** Consecutive pages are contiguous: each starts where the previous one ends. */
  lemma PagesContiguous(i: nat, n: nat, cpp: nat)
    requires cpp >= 1 && i + 1 < PageCount(n, cpp)
    ensures Upper(i, n, cpp) == Lower(i + 1, cpp)
  {
    PageBounds(i, n, cpp);
  }

  /** The list cut into pages, in order. */
  function Paginate<X>(s: seq<X>, cpp: nat): (pages: seq<seq<X>>)
    requires cpp >= 1
    ensures |pages| == PageCount(|s|, cpp)
  {
    seq(PageCount(|s|, cpp), i requires 0 <= i < PageCount(|s|, cpp) =>
      PageBounds(i, |s|, cpp);
      s[Lower(i, cpp)..Upper(i, |s|, cpp)])
  }

  function Flatten<X>(pages: seq<seq<X>>): seq<X> {
    if pages == [] then [] else Flatten(pages[..|pages| - 1]) + pages[|pages| - 1]
  }

  /** The first `m` pages hold exactly the first `min(m * cpp, n)` cards. */
  lemma {:induction false} FlattenPrefix<X>(s: seq<X>, cpp: nat, m: nat)
    requires cpp >= 1 && m <= PageCount(|s|, cpp)
    ensures Flatten(Paginate(s, cpp)[..m]) == s[..Min(m * cpp, |s|)]
  {
    var pages := Paginate(s, cpp);
    if m == 0 {
      assert pages[..0] == [];
    } else {
      FlattenPrefix(s, cpp, m - 1);
      PageBounds(m - 1, |s|, cpp);
      MulPredecessor(m, cpp);
      if m - 1 > 0 {
        PagesContiguous(m - 2, |s|, cpp);
        MulPredecessor(m - 1, cpp);
      }
      assert pages[..m][..m - 1] == pages[..m - 1];
      assert Min((m - 1) * cpp, |s|) == Lower(m - 1, cpp);
      assert Min(m * cpp, |s|) == Upper(m - 1, |s|, cpp);
    }
  }

  /** Concatenating the pages gives back the whole list, in order: nothing is
      dropped, duplicated or reordered. */
  lemma PaginateFlatten<X>(s: seq<X>, cpp: nat)
    requires cpp >= 1
    ensures Flatten(Paginate(s, cpp)) == s
  {
    var p := PageCount(|s|, cpp);
    FlattenPrefix(s, cpp, p);
    assert Paginate(s, cpp)[..p] == Paginate(s, cpp);
  }

  /** Card `k` is on page `k / cpp`, at position `k % cpp` of that page, and
      conversely position `j` of page `i` holds card `i * cpp + j`. */
  lemma PageOfEntry<X>(s: seq<X>, cpp: nat, k: nat)
    requires cpp >= 1 && k < |s|
    ensures k / cpp < PageCount(|s|, cpp)
    ensures k % cpp < |Paginate(s, cpp)[k / cpp]|
    ensures Paginate(s, cpp)[k / cpp][k % cpp] == s[k]
  {
    var i := k / cpp;
    DivModUnique(k, cpp, i, k % cpp);
    var p := PageCount(|s|, cpp);
    if p <= i {
      MulMonotone(p, i, cpp);
      assert false;
    }
    PageBounds(i, |s|, cpp);
  }

  lemma EntryOfPage<X>(s: seq<X>, cpp: nat, i: nat, j: nat)
    requires cpp >= 1 && i < PageCount(|s|, cpp) && j < |Paginate(s, cpp)[i]|
    ensures i * cpp + j < |s|
    ensures Paginate(s, cpp)[i][j] == s[i * cpp + j]
  {
    PageBounds(i, |s|, cpp);
  }

  /** Two lists of the same length are cut at the same places, so the `j`-th
      image of a page and the `j`-th card row of that page belong together. */
  lemma PagesPaired<X, Y>(xs: seq<X>, ys: seq<Y>, cpp: nat, i: nat)
    requires cpp >= 1 && |xs| == |ys| && i < PageCount(|xs|, cpp)
    ensures |Paginate(xs, cpp)[i]| == |Paginate(ys, cpp)[i]| <= cpp
    ensures forall j :: 0 <= j < |Paginate(xs, cpp)[i]| ==>
      && i * cpp + j < |xs|
      && Paginate(xs, cpp)[i][j] == xs[i * cpp + j]
      && Paginate(ys, cpp)[i][j] == ys[i * cpp + j]
  {
    PageBounds(i, |xs|, cpp);
    var px, py := Paginate(xs, cpp)[i], Paginate(ys, cpp)[i];
    assert |px| == Upper(i, |xs|, cpp) - Lower(i, cpp) == |py|;
    forall j | 0 <= j < |px|
      ensures i * cpp + j < |xs| && px[j] == xs[i * cpp + j] && py[j] == ys[i * cpp + j]
    {
      EntryOfPage(xs, cpp, i, j);
      EntryOfPage(ys, cpp, i, j);
    }
  }

  /** Page `i` is the slice between its bounds. */
  lemma PageSlice<X>(s: seq<X>, cpp: nat, i: nat)
    requires cpp >= 1 && i < PageCount(|s|, cpp)
    ensures Lower(i, cpp) <= Upper(i, |s|, cpp) <= |s|
    ensures Paginate(s, cpp)[i] == s[Lower(i, cpp)..Upper(i, |s|, cpp)]
  {
    PageBounds(i, |s|, cpp);
  }

  /** Ten cards on pages of twelve make one page with all ten in order. */
  lemma TenCardsOnePage<X>(s: seq<X>)
    requires |s| == 10
    ensures |Paginate(s, 12)| == 1 && Paginate(s, 12)[0] == s
  {
    assert PageCount(10, 12) == 1;
    PageSlice(s, 12, 0);
    assert Upper(0, 10, 12) == 10;
    assert s[0..10] == s;
  }

  /** Thirteen cards make a full page of twelve and a page with the last one. */
  lemma ThirteenCardsTwoPages<X>(s: seq<X>)
    requires |s| == 13
    ensures |Paginate(s, 12)| == 2
    ensures Paginate(s, 12)[0] == s[..12] && Paginate(s, 12)[1] == s[12..]
  {
    assert PageCount(13, 12) == 2;
    PageSlice(s, 12, 0);
    PageSlice(s, 12, 1);
    assert Upper(0, 13, 12) == 12 && Lower(1, 12) == 12 && Upper(1, 13, 12) == 13;
  }

  /** A finished page: its size and what was drawn on it. */
  datatype Sheet<T> = Sheet(width: nat, height: nat, ops: seq<Op<T>>)

  /** What page `i` holds when it is saved: the background at the origin,
      then that page's card images, then their captions. */
  function PageSheet<T>(images: seq<T>, cards: seq<Card>, background: T, g: PageGeometry,
                        measure: string -> Extent, i: nat): Sheet<T>
    requires g.WellShaped() && |images| == |cards|
    requires i < PageCount(|images|, g.Capacity())
  {
    var cpp := g.Capacity();
    Sheet(g.width, g.height,
      [Overlay(Original(background), 0, 0)]
      + ImageOps(Paginate(images, cpp)[i], g)
      + CaptionOps(Paginate(cards, cpp)[i], g, measure))
  }

  /** The page loop of src/main.rs:179-207. Each finished canvas is what
      would be saved as page `i`; the sequence returned holds them in order.
      The compile-time geometry is well shaped (`ValidFits`). */
  method RenderPages<T>(images: seq<T>, cards: seq<Card>, background: T, g: PageGeometry,
                        measure: string -> Extent) returns (pages: seq<Sheet<T>>)
    requires g.WellShaped() && |images| == |cards|
    ensures |pages| == PageCount(|images|, g.Capacity())
    ensures forall i :: 0 <= i < |pages| ==> pages[i] == PageSheet(images, cards, background, g, measure, i)
  {
    var cardsPerPage := g.cols * g.rows;
    assert cardsPerPage == g.Capacity();
    var numPages := (|images| + cardsPerPage - 1) / cardsPerPage;
    assert numPages == PageCount(|images|, cardsPerPage);
    pages := [];
    for i := 0 to numPages
      invariant |pages| == i
      invariant forall j :: 0 <= j < i ==> pages[j] == PageSheet(images, cards, background, g, measure, j)
    {
      var sheet := RenderPage(images, cards, background, g, measure, i);
      pages := pages + [sheet];
    }
  }

  /** The body of that loop (src/main.rs:184-205): a fresh canvas of the
      page's size, the background at the origin, then the images and the
      captions of the slice `[i * cpp, min(i * cpp + cpp, n))`. */
  method RenderPage<T>(images: seq<T>, cards: seq<Card>, background: T, g: PageGeometry,
                       measure: string -> Extent, i: nat) returns (sheet: Sheet<T>)
    requires g.WellShaped() && |images| == |cards|
    requires i < PageCount(|images|, g.Capacity())
    ensures sheet == PageSheet(images, cards, background, g, measure, i)
  {
    var cardsPerPage := g.cols * g.rows;
    assert cardsPerPage == g.Capacity();
    var base := new Canvas<T>(g.width, g.height);
    base.Overlay(Original(background), 0, 0);
    ghost var withBackground := base.ops;
    assert withBackground == [Overlay(Original(background), 0, 0)];

    var lower := i * cardsPerPage;
    var upper := Min(i * cardsPerPage + cardsPerPage, |images|);
    PageBounds(i, |images|, cardsPerPage);
    assert lower == Lower(i, g.Capacity()) && upper == Upper(i, |images|, g.Capacity());
    var cardImgSlice := images[lower..upper];
    PlaceCardImages(base, cardImgSlice, g);
    ghost var withImages := base.ops;
    assert withImages == withBackground + ImageOps(cardImgSlice, g);

    var csvCardSlice := cards[lower..upper];
    DrawTextToImage(base, csvCardSlice, g, measure);
    assert base.ops == withImages + CaptionOps(csvCardSlice, g, measure);
    SheetOfPage(images, cards, background, g, measure, i, cardImgSlice, csvCardSlice);
    assert base.width == g.width && base.height == g.height;
    sheet := Sheet(base.width, base.height, base.ops);
  }

  /** Page `i`'s sheet is made of the two slices that the page loop cuts. */
  lemma SheetOfPage<T>(images: seq<T>, cards: seq<Card>, background: T, g: PageGeometry,
                       measure: string -> Extent, i: nat, imgSlice: seq<T>, cardSlice: seq<Card>)
    requires g.WellShaped() && |images| == |cards|
    requires i < PageCount(|images|, g.Capacity())
    requires Lower(i, g.Capacity()) <= Upper(i, |images|, g.Capacity()) <= |images|
    requires imgSlice == images[Lower(i, g.Capacity())..Upper(i, |images|, g.Capacity())]
    requires cardSlice == cards[Lower(i, g.Capacity())..Upper(i, |images|, g.Capacity())]
    ensures PageSheet(images, cards, background, g, measure, i)
         == Sheet(g.width, g.height,
              [Overlay(Original(background), 0, 0)] + ImageOps(imgSlice, g) + CaptionOps(cardSlice, g, measure))
  {
    assert Paginate(images, g.Capacity())[i] == imgSlice;
    assert Paginate(cards, g.Capacity())[i] == cardSlice;
  }

  /** Where the card at position `j` of page `i` (card `i * cpp + j` of the
      whole list, see `PageOfEntry`) has its image: overlay `1 + j` of sheet
      `i`, right after the background, resized to the cell at grid slot `j`. */
  lemma ImageOnItsPage<T>(images: seq<T>, cards: seq<Card>, background: T, g: PageGeometry,
                          measure: string -> Extent, i: nat, j: nat)
    requires g.WellShaped() && |images| == |cards|
    requires i < PageCount(|images|, g.Capacity()) && j < |Paginate(images, g.Capacity())[i]|
    ensures i * g.Capacity() + j < |images|
    ensures 1 + j < |PageSheet(images, cards, background, g, measure, i).ops|
    ensures PageSheet(images, cards, background, g, measure, i).ops[1 + j]
         == CellOp(images[i * g.Capacity() + j], j, g)
  {
    var cpp := g.Capacity();
    EntryOfPage(images, cpp, i, j);
    var imgPage := Paginate(images, cpp)[i];
    var ops := PageSheet(images, cards, background, g, measure, i).ops;
    var head := [Overlay(Original(background), 0, 0)] + ImageOps(imgPage, g);
    assert ops == head + CaptionOps(Paginate(cards, cpp)[i], g, measure);
    assert ops[1 + j] == head[1 + j] == ImageOps(imgPage, g)[j];
    assert imgPage[j] == images[i * cpp + j];
  }

  /** The captions of the same card are on the same sheet, at the same grid
      slot: after the page's `m` image overlays, lines `3 * j` to `3 * j + 2`
      are that card's. */
  lemma CaptionOnItsPage<T>(images: seq<T>, cards: seq<Card>, background: T, g: PageGeometry,
                            measure: string -> Extent, i: nat, j: nat)
    requires g.WellShaped() && |images| == |cards|
    requires i < PageCount(|images|, g.Capacity()) && j < |Paginate(cards, g.Capacity())[i]|
    ensures i * g.Capacity() + j < |cards|
    ensures var ops, m := PageSheet(images, cards, background, g, measure, i).ops,
                          |Paginate(images, g.Capacity())[i]|;
      && 1 + m + 3 * j + 3 <= |ops|
      && ops[1 + m + 3 * j..1 + m + 3 * j + 3]
         == CaptionDraws(CellCaption(cards[i * g.Capacity() + j], j, g, measure))
  {
    var cpp := g.Capacity();
    EntryOfPage(cards, cpp, i, j);
    var cardPage := Paginate(cards, cpp)[i];
    var m := |Paginate(images, cpp)[i]|;
    CaptionOpsAt<T>(cardPage, g, measure, j);
    var ops := PageSheet(images, cards, background, g, measure, i).ops;
    var captions := CaptionOps<T>(cardPage, g, measure);
    var head := [Overlay(Original(background), 0, 0)] + ImageOps(Paginate(images, cpp)[i], g);
    assert |head| == 1 + m;
    assert ops == head + captions;
    assert cardPage[j] == cards[i * cpp + j];
    var drawn := CaptionDraws<T>(CellCaption(cards[i * cpp + j], j, g, measure));
    assert captions[3 * j..3 * j + 3] == drawn;
    SliceAfterPrefix(ops, head, captions, 3 * j, 3 * j + 3, drawn);
  }

  /** A slice of the part after a prefix, seen from the whole sequence. */
  lemma SliceAfterPrefix<X>(whole: seq<X>, prefix: seq<X>, rest: seq<X>, lo: nat, hi: nat, part: seq<X>)
    requires whole == prefix + rest && lo <= hi <= |rest| && rest[lo..hi] == part
    ensures whole[|prefix| + lo..|prefix| + hi] == part
  {
    forall p | 0 <= p < hi - lo
      ensures whole[|prefix| + lo..|prefix| + hi][p] == part[p]
    {
      assert whole[|prefix| + lo + p] == rest[lo + p];
    }
  }
}
