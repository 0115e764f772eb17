/** The piled-snow image, abstracted to the set of pixels whose alpha is
    non-zero. Drawing the snow sprite marks pixels; the plow's clear image,
    drawn with the clear blend mode, unmarks a one-pixel-wide column. Both
    are clipped to the image, as drawing onto an image is. */
module Pile {

  /** Every pixel of a `width` x `height` image. */
  function Range(width: int, height: int): set<(int, int)> {
    set x, y | 0 <= x < width && 0 <= y < height :: (x, y)
  }

  /** The pixels of a `side` x `side` square at (left, top), clipped. */
  function Block(width: int, height: int, left: int, top: int, side: int): set<(int, int)> {
    set x, y | left <= x < left + side && top <= y < top + side &&
               0 <= x < width && 0 <= y < height :: (x, y)
  }

  /** Drawing the opaque snow sprite scaled to a square: every on-image
      pixel of the square becomes marked and no pixel is unmarked. */
  function Stamp(cells: set<(int, int)>, width: int, height: int,
                 left: int, top: int, side: int): (r: set<(int, int)>)
    ensures cells <= r
    ensures forall x, y ::
      (left <= x < left + side && top <= y < top + side && 0 <= x < width && 0 <= y < height)
      ==> (x, y) in r
    ensures forall p :: p in r && p !in cells ==>
      p in Range(width, height) && left <= p.0 < left + side && top <= p.1 < top + side
  {
    cells + Block(width, height, left, top, side)
  }

  /** Drawing the 1-pixel-wide clear image at column `col`: exactly the
      pixels of that column become unmarked. */
  function Clear(cells: set<(int, int)>, col: int): (r: set<(int, int)>)
    ensures r <= cells
    ensures forall p :: p in r ==> p.0 != col
    ensures forall p :: p in cells && p.0 != col ==> p in r
  {
    set p | p in cells && p.0 != col
  }

  /** Stamping keeps the pile inside the image. */
  lemma StampInRange(cells: set<(int, int)>, width: int, height: int,
                     left: int, top: int, side: int)
    requires cells <= Range(width, height)
    ensures Stamp(cells, width, height, left, top, side) <= Range(width, height)
  {
  }

  /** A column outside the image clears nothing. */
  lemma ClearOffImage(cells: set<(int, int)>, width: int, height: int, col: int)
    requires cells <= Range(width, height)
    requires col < 0 || col >= width
    ensures Clear(cells, col) == cells
  {
    forall p | p in cells ensures p.0 != col {
      assert p in Range(width, height);
    }
  }
}
