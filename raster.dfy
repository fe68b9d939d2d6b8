/** The canvas a page is composed on. Pixels are not modelled: the canvas
    keeps the log of what was drawn onto it, in order, and each drawing call
    of the image libraries (`imageops::overlay`, `draw_text_mut`) appends one
    entry to that log. */
module Raster {

  /** An image as handed to `imageops::overlay`: either a decoded image as
      it is, or the result of `imageops::resize` to the given size. */
  datatype Picture<T> = Original(image: T) | Resized(image: T, width: nat, height: nat)

  /** One drawing call on the canvas, with the offset of its top-left corner. */
  datatype Op<T> =
    | Overlay(top: Picture<T>, x: int, y: int)
    | Text(content: string, x: int, y: int)

  class Canvas<T> {
    const width: nat
    const height: nat
    var ops: seq<Op<T>>

    /** `DynamicImage::new_rgba16(width, height)`: a blank canvas. */
    constructor (width: nat, height: nat)
      ensures this.width == width && this.height == height
      ensures ops == []
    {
      this.width := width;
      this.height := height;
      ops := [];
    }

    /** `imageops::overlay(self, top, x, y)`. */
    method Overlay(top: Picture<T>, x: int, y: int)
      modifies this
      ensures ops == old(ops) + [Op.Overlay(top, x, y)]
    {
      ops := ops + [Op.Overlay(top, x, y)];
    }

    /** `draw_text_mut(self, colour, x, y, scale, font, content)`; the colour,
        scale and font are the same for every call and are not recorded. */
    method DrawText(content: string, x: int, y: int)
      modifies this
      ensures ops == old(ops) + [Text(content, x, y)]
    {
      ops := ops + [Text(content, x, y)];
    }
  }
}
