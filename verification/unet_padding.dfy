/** `PadIfNecessary` of the UNet: pads an image so that height and width are
    multiples of `2^depth` (so that `depth` poolings by 2 divide exactly) and
    later slices the network's output back to the original extent. The
    padding arithmetic is modelled on integers, and one channel of the
    tensor as a plane of rows (batch and channel axes are sliced whole). */
module UNetPadding {
  import opened Common

  /** `(2 ** depth - n % 2 ** depth) % 2 ** depth`: the padding that brings
      one extent `n` to a multiple of `2 ** depth`. */
  function PadExtent(n: nat, depth: nat): (p: nat)
    ensures p < Pow2(depth)
    ensures (n + p) % Pow2(depth) == 0
    ensures p == 0 <==> n % Pow2(depth) == 0
  {
    var t := Pow2(depth);
    var q, r := n / t, n % t;
    assert n == q * t + r;
    var p := (t - r) % t;
    if r == 0 then
      DivMod(t, t, 1, 0);
      assert p == 0;
      p
    else
      DivMod(t - r, t, 0, t - r);
      assert p == t - r;
      DivMod(n + p, t, q + 1, 0);
      p
  }

  /** No smaller padding reaches a multiple of `2 ** depth`. */
  lemma PadExtentLeast(n: nat, depth: nat, q: nat)
    requires (n + q) % Pow2(depth) == 0
    ensures PadExtent(n, depth) <= q
  {
    var p := PadExtent(n, depth);
    LeastStep(n, p, q, Pow2(depth));
  }

  /** Below `t` there is one padding that reaches a multiple of `t`. */
  lemma LeastStep(n: nat, p: nat, q: nat, t: nat)
    requires p < t && (n + p) % t == 0 && (n + q) % t == 0
    ensures p <= q
  {
    if q < p {
      // n + q and n + p would be multiples of t less than t apart
      MultiplesGap(n + q, n + p, t);
    }
  }

  /** `pad_amt = [pad_left, pad_right, pad_top, pad_bottom]`. */
  datatype PadAmount = PadAmount(left: nat, right: nat, top: nat, bottom: nat)

  /** `get_pad_amt`: each extent padded to the next multiple of `2 ** depth`,
      split evenly with the odd pixel at the right (bottom). */
  function GetPadAmt(h: nat, w: nat, depth: nat): (a: PadAmount)
    ensures (h + a.top + a.bottom) % Pow2(depth) == 0 && (w + a.left + a.right) % Pow2(depth) == 0
    ensures a.top + a.bottom < Pow2(depth) && a.left + a.right < Pow2(depth)
    ensures a.top <= a.bottom <= a.top + 1 && a.left <= a.right <= a.left + 1
    ensures h % Pow2(depth) == 0 ==> a.top == 0 && a.bottom == 0
    ensures w % Pow2(depth) == 0 ==> a.left == 0 && a.right == 0
  {
    var ph := SplitEven(PadExtent(h, depth));
    var pw := SplitEven(PadExtent(w, depth));
    PadAmount(pw.0, pw.1, ph.0, ph.1)
  }

  /** A Python `slice(start, stop)` with non-negative bounds. */
  datatype Span = Span(start: nat, stop: nat)

  /** `unpad_loc`, less the two whole-axis slices for batch and channel. */
  datatype UnpadLoc = UnpadLoc(rows: Span, cols: Span)

  /** `get_unpad_loc`: slices of the padded extents that drop the padding. */
  function GetUnpadLoc(h: nat, w: nat, a: PadAmount): (loc: UnpadLoc)
    ensures loc.rows.start == a.top && loc.rows.stop == a.top + h
    ensures loc.cols.start == a.left && loc.cols.stop == a.left + w
  {
    var padH := h + a.top + a.bottom;
    var padW := w + a.left + a.right;
    UnpadLoc(Span(a.top, padH - a.bottom), Span(a.left, padW - a.right))
  }

  /** `s[start:stop]` in Python: bounds past the end are clamped, and a stop
      before the start gives an empty slice. */
  function PySlice<T>(s: seq<T>, sp: Span): (r: seq<T>)
    ensures sp.start <= sp.stop <= |s| ==> r == s[sp.start..sp.stop]
    ensures |r| == Min(sp.stop, |s|) - Min(sp.start, Min(sp.stop, |s|))
  {
    var b := Min(sp.stop, |s|);
    s[Min(sp.start, b)..b]
  }

  /** One channel of an image: `rows`, each `width` values long. */
  datatype Plane = Plane(width: nat, rows: seq<seq<int>>) {
    predicate Valid() { forall i :: 0 <= i < |rows| ==> |rows[i]| == width }
    function Height(): nat { |rows| }
  }

  function ZeroRow(n: nat): (r: seq<int>)
    ensures |r| == n
  {
    seq(n, _ => 0)
  }

  function PadRow(row: seq<int>, a: PadAmount): (r: seq<int>)
    ensures |r| == a.left + |row| + a.right
  {
    ZeroRow(a.left) + row + ZeroRow(a.right)
  }

  /** `nn.functional.pad(x, pad_amt)`: zeros added on each side. */
  function PadPlane(x: Plane, a: PadAmount): (y: Plane)
    requires x.Valid()
    ensures y.Valid()
    ensures y.Height() == x.Height() + a.top + a.bottom
    ensures y.width == x.width + a.left + a.right
  {
    var w := x.width + a.left + a.right;
    var h := |x.rows|;
    var rows := seq(a.top + h + a.bottom, i =>
      if a.top <= i < a.top + h then PadRow(x.rows[i - a.top], a)
      else ZeroRow(w));
    assert forall i :: 0 <= i < |rows| ==> |rows[i]| == w by {
      forall i | 0 <= i < |rows|
        ensures |rows[i]| == w
      {
        if a.top <= i < a.top + h {
          assert rows[i] == PadRow(x.rows[i - a.top], a);
          assert |x.rows[i - a.top]| == x.width;
        } else {
          assert rows[i] == ZeroRow(w);
        }
      }
    }
    Plane(w, rows)
  }

  /** `x[unpad_loc]`: the row slice, then the column slice of every row. */
  function ApplyLoc(y: Plane, loc: UnpadLoc): (r: Plane)
    ensures r.Height() == Min(loc.rows.stop, y.Height()) - Min(loc.rows.start, Min(loc.rows.stop, y.Height()))
    ensures y.Valid() ==> r.Valid()
    ensures y.Valid() && loc.rows.start <= loc.rows.stop <= y.Height() && loc.cols.start <= loc.cols.stop <= y.width ==>
              && r.Height() == loc.rows.stop - loc.rows.start
              && r.width == loc.cols.stop - loc.cols.start
              && forall i, j :: 0 <= i < r.Height() && 0 <= j < r.width ==>
                   r.rows[i][j] == y.rows[loc.rows.start + i][loc.cols.start + j]
  {
    var rows := PySlice(y.rows, loc.rows);
    var width := Min(loc.cols.stop, y.width) - Min(loc.cols.start, Min(loc.cols.stop, y.width));
    var r := Plane(width, seq(|rows|, i requires 0 <= i < |rows| => PySlice(rows[i], loc.cols)));
    assert y.Valid() ==> r.Valid() by {
      if y.Valid() {
        forall i | 0 <= i < |rows|
          ensures |r.rows[i]| == width
        {
          assert |rows[i]| == y.width;
        }
      }
    }
    r
  }

  /** Slicing with the location computed for a plane recovers that plane
      from its padded version, for any padding amounts. */
  lemma UnpadAfterPad(x: Plane, a: PadAmount)
    requires x.Valid()
    ensures ApplyLoc(PadPlane(x, a), GetUnpadLoc(x.Height(), x.width, a)) == x
  {
    var y := PadPlane(x, a);
    var loc := GetUnpadLoc(x.Height(), x.width, a);
    var rows := PySlice(y.rows, loc.rows);
    assert |rows| == |x.rows|;
    forall i | 0 <= i < |rows|
      ensures PySlice(rows[i], loc.cols) == x.rows[i]
    {
      assert rows[i] == y.rows[a.top + i];
      assert rows[i] == PadRow(x.rows[i], a);
      assert rows[i][a.left..a.left + x.width] == x.rows[i];
    }
    assert ApplyLoc(y, loc).rows == x.rows;
  }

  // ---------------------------------------------------------------------
  // The module and its state

  /** What `pad` remembers between calls: `pad_amt` and `unpad_loc`, which
      the source always sets together. */
  datatype Stored = Stored(padAmt: PadAmount, unpadLoc: UnpadLoc)

  datatype PadModule = PadModule(depth: nat, stored: Option<Stored>)

  /** `PadIfNecessary(depth)`: nothing stored yet. */
  function New(depth: nat): PadModule
  {
    PadModule(depth, None)
  }

  /** The amounts and location `pad` computes for a plane. */
  function Measure(depth: nat, x: Plane): (s: Stored)
    ensures (x.Height() + s.padAmt.top + s.padAmt.bottom) % Pow2(depth) == 0
    ensures (x.width + s.padAmt.left + s.padAmt.right) % Pow2(depth) == 0
    ensures s.unpadLoc.rows == Span(s.padAmt.top, s.padAmt.top + x.Height())
    ensures s.unpadLoc.cols == Span(s.padAmt.left, s.padAmt.left + x.width)
  {
    var a := GetPadAmt(x.Height(), x.width, depth);
    Stored(a, GetUnpadLoc(x.Height(), x.width, a))
  }

  /** `unpad`: `ValueError` before any `pad`, otherwise the stored slice. */
  function Unpad(m: PadModule, y: Plane): (r: Result<Plane, PyError>)
    ensures m.stored.None? <==> r == Err(ValueError)
  {
    match m.stored
    case None => Err(ValueError)
    case Some(s) => Ok(ApplyLoc(y, s.unpadLoc))
  }

  /** A fresh module refuses to unpad: `unpad` before any `pad` raises
      `ValueError`, whatever the input. */
  lemma UnpadBeforePad(depth: nat, y: Plane)
    ensures Unpad(New(depth), y) == Err(ValueError)
  {
  }

  /** `pad` as written: the amounts are computed on the first call only and
      reused on every later call, whatever the later input's shape. */
  function PadAsWritten(m: PadModule, x: Plane): (r: (PadModule, Plane))
    requires x.Valid()
    ensures r.0.depth == m.depth && r.0.stored.Some?
    ensures m.stored.Some? ==> r.0 == m
    ensures m.stored.None? ==> r.0.stored == Some(Measure(m.depth, x))
    ensures r.1 == PadPlane(x, r.0.stored.value.padAmt)
  {
    var m' := if m.stored.None? then m.(stored := Some(Measure(m.depth, x))) else m;
    (m', PadPlane(x, m'.stored.value.padAmt))
  }

  /** `pad` with the amounts recomputed for every input. */
  function Pad(m: PadModule, x: Plane): (r: (PadModule, Plane))
    requires x.Valid()
    ensures r.1.Height() % Pow2(m.depth) == 0 && r.1.width % Pow2(m.depth) == 0
    ensures r.1.Height() - x.Height() < Pow2(m.depth) && r.1.width - x.width < Pow2(m.depth)
    ensures r.0 == m.(stored := Some(Measure(m.depth, x)))
  {
    var s := Measure(m.depth, x);
    (m.(stored := Some(s)), PadPlane(x, s.padAmt))
  }

  /** On a fresh module the source's `pad` is correct: the padded plane is
      divisible, and `unpad` gives back the input. */
  lemma FirstPadIsCorrect(depth: nat, x: Plane)
    requires x.Valid()
    ensures var (m, y) := PadAsWritten(New(depth), x);
            && y.Height() % Pow2(depth) == 0 && y.width % Pow2(depth) == 0
            && Unpad(m, y) == Ok(x)
  {
    // on a fresh module the stored amounts are the ones just computed
    assert PadAsWritten(New(depth), x) == Pad(New(depth), x);
    PadUnpadRoundTrip(New(depth), x);
  }

  /** With recomputed amounts, every call pads to a multiple of
      `2 ** depth` and `unpad` after it gives back that call's input,
      whatever was padded before. */
  lemma PadUnpadRoundTrip(m: PadModule, x: Plane)
    requires x.Valid()
    ensures Unpad(Pad(m, x).0, Pad(m, x).1) == Ok(x)
  {
    UnpadAfterPad(x, Measure(m.depth, x).padAmt);
  }

  /** The source's `pad` on a second input of another shape. With depth 1,
      a 3-row plane makes the module store one row of bottom padding; a
      4-row plane padded next gets that same row, giving 5 rows (not a
      multiple of 2), and `unpad` then returns 3 rows instead of 4. */
  lemma StalePaddingOnSecondShape(x1: Plane, x2: Plane)
    requires x1.Valid() && x1.width == 2 && x1.Height() == 3
    requires x2.Valid() && x2.width == 2 && x2.Height() == 4
    ensures var m1 := PadAsWritten(New(1), x1).0;
            var m2 := PadAsWritten(m1, x2).0;
            var y2 := PadAsWritten(m1, x2).1;
            && y2.Height() == 5 && y2.Height() % Pow2(1) != 0
            && Unpad(m2, y2).Ok? && Unpad(m2, y2).value.Height() == 3
  {
    var m1 := PadAsWritten(New(1), x1).0;
    ThreeRowsAmounts(x1);
    assert m1.stored == Some(Measure(1, x1));
    StaleSecondCall(m1, x2);
  }

  /** At depth 1 a 3-row plane gets no top padding and one bottom row, and
      its unpad slice keeps rows 0 to 3. */
  lemma ThreeRowsAmounts(x: Plane)
    requires |x.rows| == 3
    ensures var s := Measure(1, x);
            && s.padAmt.top == 0 && s.padAmt.bottom == 1
            && s.unpadLoc.rows == Span(0, 3)
  {
    var a := Measure(1, x).padAmt;
    MeasureAmounts(1, x);
    assert Pow2(1) == 2;
    assert (3 + a.top + a.bottom) % 2 == 0 && a.top + a.bottom < 2;
    DivMod(3, 2, 1, 1);
  }

  /** The amounts `Measure` stores are those of `get_pad_amt`. */
  lemma MeasureAmounts(depth: nat, x: Plane)
    ensures Measure(depth, x).padAmt == GetPadAmt(x.Height(), x.width, depth)
  {
  }

  /** A second 4-row plane padded by a module that stored one row of
      padding in total: 5 rows, which `unpad` cuts back to 3. */
  lemma StaleSecondCall(m: PadModule, x2: Plane)
    requires m.depth == 1 && m.stored.Some?
    requires m.stored.value.padAmt.top == 0 && m.stored.value.padAmt.bottom == 1
    requires m.stored.value.unpadLoc.rows == Span(0, 3)
    requires x2.Valid() && x2.Height() == 4
    ensures var (m2, y2) := PadAsWritten(m, x2);
            && y2.Height() == 5 && y2.Height() % Pow2(1) != 0
            && Unpad(m2, y2).Ok? && Unpad(m2, y2).value.Height() == 3
  {
    assert Pow2(1) == 2;
    DivMod(5, 2, 2, 1);
  }
}
