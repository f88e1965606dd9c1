/** The padding `resizeWithSquarePadding` adds before resizing an image to a
    square: only the shorter side is padded, by the difference of the sides,
    split as evenly as possible with the extra pixel at the bottom (or right). */
module SquarePadding {
  import opened Common

  /** Rows added above and below, columns added left and right. */
  datatype Pads = Pads(top: nat, bottom: nat, left: nat, right: nat)

  /** The pads for an `h` by `w` image. */
  function SquarePads(h: nat, w: nat): (p: Pads)
    ensures h + p.top + p.bottom == Max(h, w) && w + p.left + p.right == Max(h, w)
    ensures h <= w ==> p.left == 0 && p.right == 0
    ensures w <= h ==> p.top == 0 && p.bottom == 0
    ensures p.top <= p.bottom <= p.top + 1 && p.left <= p.right <= p.left + 1
  {
    var sizeDiff := if h >= w then h - w else w - h;
    var padTop := if h < w then sizeDiff / 2 else 0;
    var padBottom := if h < w then sizeDiff - padTop else 0;
    var padLeft := if w < h then sizeDiff / 2 else 0;
    var padRight := if w < h then sizeDiff - padLeft else 0;
    Pads(padTop, padBottom, padLeft, padRight)
  }

  /** The contract determines the pads: any padding that squares the image,
      pads only the shorter side and splits evenly with the extra pixel last
      is the one the function computes. */
  lemma SquarePadsUnique(h: nat, w: nat, q: Pads)
    requires h + q.top + q.bottom == Max(h, w) && w + q.left + q.right == Max(h, w)
    requires h <= w ==> q.left == 0 && q.right == 0
    requires w <= h ==> q.top == 0 && q.bottom == 0
    requires q.top <= q.bottom <= q.top + 1 && q.left <= q.right <= q.left + 1
    ensures q == SquarePads(h, w)
  {
    var p := SquarePads(h, w);
    if h < w {
      SplitEvenUnique(w - h, q.top, q.bottom);
      SplitEvenUnique(w - h, p.top, p.bottom);
    } else if w < h {
      SplitEvenUnique(h - w, q.left, q.right);
      SplitEvenUnique(h - w, p.left, p.right);
    }
  }

  /** A square image is not padded. */
  lemma SquareImageUnpadded(n: nat)
    ensures SquarePads(n, n) == Pads(0, 0, 0, 0)
  {
  }
}
