# Prize-wall layout engine, modelled in Dafny

This project models the layout core of a generator for printable "prize
wall" sheets. The generator takes a list of trading-card rows (name, set
code, language, condition, a price in points and an optional display
name) and the card images. It lays the cards out on pages as a grid of
`rows × cols` cells. Under each card it writes three centred caption
lines: the title, the set line and the price line.

The model has seven modules:

- `Prelude`: `Option`, `min`, and the two pieces of 32-bit arithmetic
  the source depends on. These are `u32` subtraction as a release build
  wraps it, and the `as i32` cast.
- `Geometry`: the compile-time layout constants (margins, paddings,
  cell size, the 889:635 card aspect). They are a function of the page
  width, height, rows and columns, with the fractions turned into exact
  integer floor divisions. `Admissible` states when Rust's constant
  evaluation accepts them: no `u32` underflow or overflow and no division
  by zero. It also asks that the cards-per-page product `rows × cols`
  fit in a `u32`. That product is not a constant: `main` computes it at
  run time (src/main.rs:179).
- `Raster`: the canvas. Pixels are not modelled. A `Canvas` object keeps
  the ordered log of the drawing calls made on it (`imageops::overlay`,
  `draw_text_mut`), and its methods append to that log.
- `Images`: `place_card_images`. A loop with row and column counters
  overlays each resized image at its cell. It is proved against
  `ImageOps`, a closed form that uses `k / cols` and `k % cols`.
- `Numerals`: the decimal notation that `format!` gives the price.
- `Captions`: `draw_text_to_image`. It covers the three caption strings,
  their centring with the clamps written in the source, and the vertical
  stacking. The loop is proved against `CaptionOps`. Font metrics
  (`text_size`) are a parameter `measure: string -> Extent`.
- `Pagination`: the page loop of `main`. It computes the ceiling page
  count and cuts the image list and the card list at the same bounds. It
  composes each page and returns the finished pages in order, in place of
  saving them. The page loop needs only a well-shaped geometry: a
  non-empty grid that fits the page. Every admissible configuration gives
  one (`Geometry.ValidFits`).

Some of the code's behaviour is easy to misread. The model follows the
code:

- The title clamp `x_center - min(w/2, x_start)` (src/main.rs:134) keeps
  the `u32` subtraction from underflowing. It does not keep a wide title
  from starting left of its cell. `Captions.TitleCanStartLeftOfCell`
  gives an example: a 600-pixel title in the second column of the default
  layout starts at x = 1041, and the cell starts at 1069.
- An impossible geometry is not a run-time error. The program does not
  compile, so it is a precondition (`Geometry.Admissible`).
- The image list and the card list always have the same length. The
  source builds one image per card, or panics while fetching. So equal
  length is a precondition of `RenderPages`, not an error result.
- The background image is re-read from disk for every page. Here it is
  one parameter that every page uses.

## Model

| member | source | states |
|---|---|---|
| Geometry.MarginTop | src/main.rs:29 | the top margin: 8 % of the page height, rounded down |
| Geometry.MarginLeft | src/main.rs:30 | the left margin: 7 % of the page width, rounded down |
| Geometry.PaddingRight | src/main.rs:32 | the gap between columns: 8 % of the page width, rounded down |
| Geometry.HorizontalGaps | src/main.rs:34 | the width the two margins and the cols − 1 column gaps take |
| Geometry.CellWidthOf | src/main.rs:34-35 | the cell width: what is left of the page width after those gaps, shared equally between the columns, rounded down |
| Geometry.CellHeightOf | src/main.rs:36 | the cell height: the cell width times 889/635, rounded down |
| Geometry.PaddingBottomOf | src/main.rs:38-39 | the gap below each row: what is left of the height after the two top margins and the rows of cells, shared equally between the rows, rounded down |
| Geometry.Admissible | src/main.rs:21-39 | the constants compile: every value fits a u32, there is at least one row and one column, and no subtraction underflows; in addition, rows × cols (the product at line 179) fits a u32 |
| Geometry.Compute | src/main.rs:29-39 | each constant is the floor of its fraction; the cells, margins and paddings fit the page, with less than one pixel per cell left over; the cell height keeps 889:635 to within a pixel |
| Geometry.DefaultGeometry | src/main.rs:21-39 | the default 3508×4961 page with 3 rows and 4 columns is admissible and gives margins 396/245, padding 280/628 and cells 544×761 |
| Geometry.ValidFits | src/main.rs:34-39 | an admissible geometry has at least one cell, and its grid fits the page in both directions |
| Geometry.MarginBounds | src/main.rs:29-32 | the two margins and the right padding are the floors of 8 %, 7 % and 8 % of the page size |
| Geometry.AspectBounds | src/main.rs:36 | the cell height is the floor of the cell width times 889/635 |
| Geometry.WidthFit | src/main.rs:34-35 | the columns, their paddings and both margins fit the width, and leave less than one pixel per column |
| Geometry.HeightFit | src/main.rs:38-39 | the rows, their bottom paddings and both margins fit the height, and leave less than one pixel per row |
| Geometry.PageGeometry.Capacity | src/main.rs:179 | a page holds rows × cols cards, at least as many as one row or one column |
| Images.SlotX | src/main.rs:71-72 | the left edge of column col: the left margin plus col cell widths and col column gaps |
| Images.SlotY | src/main.rs:73-74 | the top edge of row row: the top margin plus row cell heights and row bottom gaps |
| Images.Row | src/main.rs:78-82 | the row counter after k images: k / cols |
| Images.Col | src/main.rs:78-82 | the column counter after k images: k mod cols, always below cols |
| Images.CellOp | src/main.rs:69-76 | the overlay for index k: the image resized to the cell, at the corner of the slot of row k / cols and column k mod cols |
| Images.ImageOps | src/main.rs:66-83 | one overlay per image, in the images' order, and exactly as many overlays as images |
| Images.PlaceCardImages | src/main.rs:63-85 | the loop appends one overlay per image: image k, resized to the cell, at the slot of row k / cols and column k % cols |
| Images.CountersStep | src/main.rs:77-82 | one counter step moves from the slot of k to the slot of k + 1: the column goes up by one, or wraps to 0 at the next row |
| Images.GridBijection | src/main.rs:71-82 | index = row × cols + col exactly when (row, col) is the slot of the index; the indices below rows × cols map onto the grid's slots one to one |
| Images.RowMajorOrder | src/main.rs:77-82 | a later index is in a later row, or in the same row further right |
| Images.CellsDisjoint | src/main.rs:71-74 | the cells of two different indices do not overlap |
| Images.CellInsidePage | src/main.rs:71-74 | every cell of a full page lies inside the page margins |
| Images.ColumnInsidePage | src/main.rs:71-72 | every column of cells lies between the left and right margins |
| Images.RowInsidePage | src/main.rs:73-74 | every row of cells lies between the top and bottom margins |
| Images.PlacementOnGrid | src/main.rs:69-76 | the overlay at slot (row, col) is image row × cols + col, resized to the cell and placed at that slot's corner |
| Numerals.Decimal | src/main.rs:125 | the price's decimal notation has only digits and no leading zero |
| Numerals.DecimalRoundTrip | src/main.rs:125 | reading back the decimal notation of a number gives the number |
| Numerals.DecimalInjective | src/main.rs:125 | different prices are written differently |
| Numerals.DecimalOfDigits | src/main.rs:125 | conversely, every digit string without a leading zero is the decimal notation of its value |
| Captions.Title | src/main.rs:123 | the title: the display override when the row has one, else the card's name |
| Captions.SetLine | src/main.rs:124 | the set line: the set code, the language in parentheses and the condition, separated by single spaces |
| Captions.PriceLine | src/main.rs:125 | the price line: the points in decimal, a space and the suffix "WP" |
| Captions.SetLineRoundTrip | src/main.rs:124 | the set line "set (language) condition" splits back into its three fields when the set code has no "(" and the language no ")" |
| Captions.ParseSetLineSound | src/main.rs:124 | every string the set-line reader accepts is the set line of the fields it returns |
| Captions.PriceLineRoundTrip | src/main.rs:125 | the price line "points WP" reads back to the points |
| Captions.ParsePriceLineSound | src/main.rs:125 | every string the price-line reader accepts is the price line of the number it returns |
| Captions.CaptionTexts | src/main.rs:123-125 | for every card, the title is the display override if there is one, else the name, and the price line reads back to the points; the set line reads back to the set code, language and condition when the set code has no "(" and the language no ")" |
| Captions.XStart | src/main.rs:127 | the left edge of column col as the caption code computes it: the left margin plus col times (cell width + column gap) |
| Captions.XCenter | src/main.rs:128 | the centre of column col: its left edge plus half the cell width, rounded down |
| Captions.YStart | src/main.rs:132 | the top of the first caption line in row row: the bottom edge of the cell plus the title's height |
| Captions.TitleX | src/main.rs:134 | the title offset never underflows; it lies in [x_center − x_start, x_center], and it centres the title when half its width is at most x_start |
| Captions.SetX | src/main.rs:139 | the set-line offset lies in [0, x_center]; it centres the line when half the width is at most x_center, and is 0 otherwise |
| Captions.PriceX | src/main.rs:144 | the price offset is a u32 that centres the line whenever the subtraction does not underflow |
| Prelude.Min | src/main.rs:134 | `min` as the title clamp (and the set clamp at line 139 and the page bound at line 194) uses it: a lower bound of both arguments that is one of them |
| Prelude.WrappingSub | src/main.rs:144 | the price-line subtraction as a release build computes it: a u32, equal to the true difference when that is in range, and to 2^32 plus it when it underflows |
| Prelude.AsI32 | src/main.rs:136 | the `as i32` cast used here and at lines 141 and 146: an i32 congruent to its argument modulo 2^32, and equal to it below 2^31 |
| Prelude.WrapThenCastIsDifference | src/main.rs:144-146 | a wrapped u32 difference cast to i32 is the signed difference, so an underflowing price is drawn at a negative offset |
| Captions.CaptionOffsets | src/main.rs:127-146 | for a cell centre inside the i32 range, the drawn title and set offsets lie in their clamped ranges and the price offset is exactly x_center − w/2 |
| Captions.CaptionStacking | src/main.rs:130-146 | the three lines are spaced by h + h/2 of the title's height, so they go strictly downwards when h > 0 |
| Captions.CaptionAnchoredToImage | src/main.rs:127-132 | a caption's x_start is the left edge of the image with the same index, and its first line is one title height below that image's bottom edge |
| Captions.TitleCanStartLeftOfCell | src/main.rs:134 | with the default geometry, a 600-pixel title in column 1 starts at 1041, left of the cell's start at 1069 |
| Captions.CellCaption | src/main.rs:123-146 | the three lines one pass of the loop draws for card k: the three texts, their x offsets cast with `as i32`, and y positions y_start, y_start + h + h/2 and y_start + 2(h/2 + h) |
| Captions.CaptionDraws | src/main.rs:136-146 | one card's three `draw_text_mut` calls in order: the title, then the set line, then the price line, each at its own position |
| Captions.CaptionOps | src/main.rs:122-152 | the draws of the whole loop: three lines per card, card after card, so three times as many draws as cards |
| Captions.DrawCardCaption | src/main.rs:123-146 | one pass of the loop draws the title, set and price lines of the card at its slot, in that order |
| Captions.DrawTextToImage | src/main.rs:115-154 | the loop appends three text draws per card, card after card, each at the slot its index names |
| Captions.CaptionOpsAt | src/main.rs:119-152 | card k's three lines are draw calls 3k to 3k + 2 |
| Pagination.PageCount | src/main.rs:180 | the page count is the ceiling of n / cpp: the pages hold all n cards, and there is no empty page |
| Pagination.Lower | src/main.rs:192 | the first index of page i: i × cpp |
| Pagination.Upper | src/main.rs:193-194 | the end of page i: i × cpp + cpp, capped at the number of cards |
| Pagination.Paginate | src/main.rs:192-197 | the list cut into PageCount pages, page i being the slice between its two bounds |
| Pagination.PageBounds | src/main.rs:192-197 | each page's slice [i·cpp, min(i·cpp + cpp, n)) is non-empty and in bounds; every page but the last is full, and the last ends at n |
| Pagination.LastPageSize | src/main.rs:180-194 | the last page holds n mod cpp cards, or cpp cards when that is 0 |
| Pagination.PageSlice | src/main.rs:192-197 | page i is the slice of the list between its two bounds, and both bounds lie within the list |
| Pagination.PagesContiguous | src/main.rs:192-194 | each page starts where the previous page ends |
| Pagination.FlattenPrefix | src/main.rs:183-197 | the first m pages together are exactly the first min(m·cpp, n) cards |
| Pagination.PaginateFlatten | src/main.rs:183-197 | the pages, concatenated in order, give back the whole list |
| Pagination.PageOfEntry | src/main.rs:192-197 | card k is on page k / cpp, at position k mod cpp |
| Pagination.EntryOfPage | src/main.rs:192-197 | position j of page i holds card i·cpp + j |
| Pagination.PagesPaired | src/main.rs:192-202 | the image list and the card list are cut at the same bounds, so each page's images and rows stay paired |
| Pagination.TenCardsOnePage | src/main.rs:179-197 | ten cards with twelve per page make exactly one page, holding all ten in order |
| Pagination.ThirteenCardsTwoPages | src/main.rs:179-197 | thirteen cards make a page of twelve and then a page of one |
| Pagination.PageSheet | src/main.rs:186-203 | what sheet i holds: the page's size, the background at the origin, then the page's image overlays, then its caption lines |
| Pagination.RenderPages | src/main.rs:179-207 | one finished sheet per page, in page order; sheet i is the background, then the images and then the captions of slice i |
| Pagination.RenderPage | src/main.rs:184-205 | a page is a fresh canvas of the page size with the background at the origin, then the slice's images, then its captions |
| Pagination.SheetOfPage | src/main.rs:192-202 | the sheet of page i is built from the two slices that the page loop cuts |
| Pagination.ImageOnItsPage | src/main.rs:192-198 | the card at position j of page i is card i·cpp + j, and its image is overlay 1 + j of sheet i, right after the background, resized and at the grid slot of j |
| Pagination.CaptionOnItsPage | src/main.rs:192-203 | that card's three caption lines are on the same sheet, after all of the page's images, as lines 3j to 3j + 2, and hang off the same grid slot |
| Raster.Canvas.constructor | src/main.rs:186 | a new canvas has the page's size and nothing drawn on it |
| Raster.Canvas.Overlay | src/main.rs:76 | an overlay appends exactly one entry to the canvas log |
| Raster.Canvas.DrawText | src/main.rs:136 | a text draw appends exactly one entry to the canvas log |

## Left out

- Fetching card data and images (`request_card_uris`, `load_image_from_uri`, src/main.rs:87-113) is network I/O and image decoding. Images come in as opaque values.
- Reading the card list, the command-line argument, opening the background, printing progress and saving each page as PNG (src/main.rs:156-177, 181, 185, 187-188, 195-196, 204-205) are file and console I/O. The background is a parameter, and the pages come back as values.
- Pixel work is not modelled: `imageops::resize`, `imageops::overlay`, `draw_text_mut` and the `to_rgba8` conversion. The canvas records each call with its position and, for resizing, the target size. The text colour (230, 230, 230, 255) and the font scale are the same for every call, so they are not recorded.
- Font loading and `text_size` (src/main.rs:116-117, 130, 138, 143) are replaced by the parameter `measure`. It gives natural widths and heights.
- `FONT_HEIGHT` and `FONT_SCALE` (src/main.rs:45-49) are floating point, and the model uses them only through `measure`.
- Geometry.CellHeightOf: uses the exact floor of cell width × 889 / 635. The source multiplies by the f64 value of 889/635, which is slightly below 1.4. So for some cell widths that are multiples of 5 (45, 85, 90, …), the source's height is one pixel less. At the default width of 544 both give 761. The other fractions (0.08 and 0.07) are f64 values slightly above their decimals, so their truncation equals the integer floor used here.
- Captions.TitleX: uses integer halving where the source uses `f32`. The two agree while widths and offsets are below 2^24.
- Captions.CaptionOffsets: in a debug build, the price-line subtraction at src/main.rs:144 panics when it underflows. The model follows a release build: the subtraction wraps, and the `as i32` cast turns the result into a negative offset.
- Overflow of `u32` in the image and caption positions is not modelled, and neither is overflow of `i32` in `y as i32 + h + …`. Only the subtractions the source clamps, and the one it does not, are 32-bit in the model. Coordinates are otherwise unbounded integers.
- Pagination.PageCount: uses exact integer ceiling division. The source (src/main.rs:180) divides in `f64` and casts only the ceiling to `u32`. The two agree while the number of cards is below 2^53 and the page count below 2^32.
- Pagination.Upper: uses unbounded integers. The source (src/main.rs:192-194) computes both bounds in `u32`. It truncates `card_imgs.len()` to `u32`, and `i * cards_per_page + cards_per_page` can overflow when there are close to 2^32 cards. Neither is modelled.
- Pagination.RenderPages: requires the image list and the card list to have the same length. The source produces one image per row or panics before layout begins.
- Captions.DrawTextToImage: draws on the canvas it is given. The source also returns a copy of that canvas (`to_owned`), and the copy equals the canvas.
