/** `UNet.forward` on tensor shapes: the skip stack the encoder fills and the
    decoder drains, the halving of height and width by each pooling, and the
    doubling by each upsampling that must land exactly on the skip tensor's
    extent for `torch.cat` to accept it. Kernel size 3 with padding 1 is
    assumed, so convolutions keep height and width. */
module UNetForward {
  import opened Common
  import opened UNetPadding
  import opened UNetChannels

  /** An activation's channels, height and width (batch left out). */
  datatype Shape = Shape(ch: int, h: nat, w: nat)

  /** An entry of `x_skip`, tagged with the level that pushed it. */
  datatype Saved = Saved(level: nat, shape: Shape)

  /** The extent after `k` poolings by 2, each rounding down. */
  function Halve(n: nat, k: nat): nat
  {
    if k == 0 then n else Halve(n, k - 1) / 2
  }

  /** An extent the network can process at the given depth: at every level
      that is pooled the extent is even, so that upsampling restores it, and
      not zero, so that pooling leaves something. */
  predicate Fits(n: nat, depth: nat)
  {
    forall k :: 0 <= k < depth ==> Halve(n, k) % 2 == 0 && Halve(n, k) > 0
  }

  lemma FitsStep(n: nat, d: nat)
    ensures Fits(n, d + 1) <==> Fits(n, d) && Halve(n, d) % 2 == 0 && Halve(n, d) > 0
  {
  }

  /** `(a // b) // c == a // (b * c)`. */
  lemma DivDiv(a: nat, b: nat, c: nat)
    requires b > 0 && c > 0
    ensures (a / b) / c == a / (b * c)
  {
    var q1, r1 := a / b, a % b;
    var q2, r2 := q1 / c, q1 % c;
    NestedRemainder(a, b, c, q1, r1, q2, r2);
    DivMod(a, b * c, q2, b * r2 + r1);
  }

  /** Dividing by `b` and then by `c` leaves a remainder below `b * c`. */
  lemma NestedRemainder(a: int, b: int, c: int, q1: int, r1: int, q2: int, r2: int)
    requires 0 <= r1 < b && 0 <= r2 < c
    requires a == b * q1 + r1 && q1 == c * q2 + r2
    ensures a == (b * c) * q2 + (b * r2 + r1)
    ensures b * r2 + r1 < b * c
  {
    assert b * q1 == (b * c) * q2 + b * r2;
    assert b * r2 <= b * (c - 1);
  }

  /** `k` poolings divide by `2 ** k`. */
  lemma {:induction false} HalveIsDivision(n: nat, k: nat)
    ensures Halve(n, k) == n / Pow2(k)
  {
    if k > 0 {
      HalveIsDivision(n, k - 1);
      DivDiv(n, Pow2(k - 1), 2);
      assert Pow2(k - 1) * 2 == Pow2(k);
    }
  }

  /** A multiple of `2t` is a multiple of `t` with an even quotient, and
      conversely. */
  lemma ModDouble(n: nat, t: nat)
    requires t > 0
    ensures n % (2 * t) == 0 <==> n % t == 0 && (n / t) % 2 == 0
  {
    var q, r := n / t, n % t;
    var a, b := q / 2, q % 2;
    assert n == t * q + r;
    assert q == 2 * a + b;
    assert n == (2 * t) * a + (t * b + r);
    assert t * b + r < 2 * t;
    DivMod(n, 2 * t, a, t * b + r);
  }

  /** A positive extent fits exactly when it is a multiple of `2 ** depth`:
      the precondition `PadIfNecessary` establishes. */
  lemma {:induction false} FitsIffDivisible(n: nat, depth: nat)
    requires n > 0
    ensures Fits(n, depth) <==> n % Pow2(depth) == 0
  {
    if depth == 0 {
      DivMod(n, 1, n, 0);
    } else {
      var d := depth - 1;
      var t := Pow2(d);
      FitsIffDivisible(n, d);
      FitsStep(n, d);
      HalveIsDivision(n, d);
      ModDouble(n, t);
      assert Pow2(depth) == 2 * t;
      if n % t == 0 {
        DivMod(n, t, n / t, 0);
        assert n == t * (n / t);
        assert n / t > 0;
      }
    }
  }

  /** The extent `unpad` keeps: the length of a Python slice. */
  function SliceLength(n: nat, sp: Span): nat
  {
    Min(sp.stop, n) - Min(sp.start, Min(sp.stop, n))
  }

  /** Every one of the first `depth` poolings leaves at least one row and
      one column. */
  predicate Poolable(H: nat, W: nat, depth: nat)
  {
    forall k :: 0 <= k < depth ==> Halve(H, k) >= 2 && Halve(W, k) >= 2
  }

  /** The encoder half of `forward`: `in_conv`, then every down block,
      each output pushed onto `x_skip`. Pooling an extent of one row or
      column leaves nothing, which torch rejects. */
  method Encode(net: Net, H: nat, W: nat) returns (ok: bool, skips: seq<Saved>, x: Shape)
    requires Chained(net)
    ensures ok <==> Poolable(H, W, net.Depth())
    ensures ok ==> |skips| == net.Depth() + 1
    ensures ok ==> forall k :: 0 <= k <= net.Depth() ==>
                     skips[k] == Saved(k, Shape(net.channels[k], Halve(H, k), Halve(W, k)))
    ensures ok ==> x == skips[net.Depth()].shape
  {
    var depth := net.Depth();
    x := Shape(net.inConv.outCh, H, W);
    skips := [Saved(0, x)];
    var i := 0;
    while i < depth
      invariant 0 <= i <= depth
      invariant |skips| == i + 1
      invariant forall k :: 0 <= k <= i ==> skips[k] == Saved(k, Shape(net.channels[k], Halve(H, k), Halve(W, k)))
      invariant x == skips[i].shape
      invariant forall k :: 0 <= k < i ==> Halve(H, k) >= 2 && Halve(W, k) >= 2
    {
      if x.h / 2 == 0 || x.w / 2 == 0 {
        // MaxPool2d(2) of a single row or column
        return false, skips, x;
      }
      x := Shape(net.downs[i].outCh, x.h / 2, x.w / 2);
      skips := skips + [Saved(i + 1, x)];
      i := i + 1;
    }
    ok := true;
  }

  /** Both extents are even at level `k`, so that pooling there loses
      nothing. */
  predicate EvenAt(H: nat, W: nat, k: nat)
  {
    Halve(H, k) % 2 == 0 && Halve(W, k) % 2 == 0
  }

  /** What the up block at level `lvl - 1` of a chained network expects and
      produces, and when doubling the extent of level `lvl` lands on level
      `lvl - 1`. */
  lemma UpStep(net: Net, lvl: nat, H: nat, W: nat)
    requires Chained(net) && 0 < lvl <= net.Depth()
    ensures var up := net.ups[net.Depth() - lvl];
            && up.outCh == net.channels[lvl - 1]
            && (up.upCh + net.channels[lvl - 1] == up.conv1In <==> up.skipCh == net.channels[lvl - 1])
            && Halve(H, lvl) == Halve(H, lvl - 1) / 2 && Halve(W, lvl) == Halve(W, lvl - 1) / 2
            && (2 * Halve(H, lvl) == Halve(H, lvl - 1) && 2 * Halve(W, lvl) == Halve(W, lvl - 1) <==> EvenAt(H, W, lvl - 1))
  {
  }

  /** The decoder half of `forward`, after the bottleneck output has been
      popped off `x_skip`: every up block pops one skip tensor, doubles the
      extent of its input, concatenates the two and convolves. A
      concatenation of different extents, or a first convolution handed the
      wrong number of channels, is rejected by torch. */
  method Decode(net: Net, skips: seq<Saved>, x0: Shape, H: nat, W: nat) returns (ok: bool, received: seq<nat>, y: Shape)
    requires Chained(net)
    requires |skips| == net.Depth()
    requires forall k :: 0 <= k < net.Depth() ==> skips[k] == Saved(k, Shape(net.channels[k], Halve(H, k), Halve(W, k)))
    requires x0 == Shape(net.channels[net.Depth()], Halve(H, net.Depth()), Halve(W, net.Depth()))
    ensures ok <==> (forall k :: 0 <= k < net.Depth() ==> EvenAt(H, W, k)) && SkipsMatch(net)
    ensures ok ==> |received| == net.Depth() && forall i :: 0 <= i < |received| ==> received[i] == net.Depth() - 1 - i
    ensures ok ==> y == Shape(net.channels[0], H, W)
  {
    var depth := net.Depth();
    var rest := skips;
    var x := x0;
    received := [];
    // the up blocks run from the deepest level `depth - 1` up to level 0
    var lvl := depth;
    while lvl > 0
      invariant 0 <= lvl <= depth
      invariant rest == skips[..lvl]
      invariant x == Shape(net.channels[lvl], Halve(H, lvl), Halve(W, lvl))
      invariant |received| == depth - lvl && forall i :: 0 <= i < depth - lvl ==> received[i] == depth - 1 - i
      invariant forall k :: lvl <= k < depth ==> EvenAt(H, W, k)
      invariant forall i :: 0 <= i < depth - lvl ==> net.ups[i].skipCh == net.channels[depth - 1 - i]
    {
      var up := net.ups[depth - lvl];
      var skip := rest[|rest| - 1];
      rest := rest[..|rest| - 1];
      received := received + [skip.level];
      var k := lvl - 1;
      UpStep(net, lvl, H, W);
      assert skip == skips[k];
      if 2 * x.h != skip.shape.h || 2 * x.w != skip.shape.w || up.upCh + skip.shape.ch != up.conv1In {
        // `torch.cat` of different extents, or `conv1` given the wrong channels
        if up.upCh + skip.shape.ch != up.conv1In {
          assert !SkipsMatch(net) by {
            assert net.ups[depth - lvl].skipCh != net.channels[depth - 1 - (depth - lvl)];
          }
        } else {
          assert !EvenAt(H, W, k);
        }
        return false, received, x;
      }
      x := Shape(up.outCh, skip.shape.h, skip.shape.w);
      lvl := k;
    }
    ok, y := true, x;
  }

  /** Both extents fit exactly when every pooling leaves something and
      every pooled level is even: what the encoder and the decoder check. */
  lemma FitsAsChecked(H: nat, W: nat, depth: nat)
    ensures Fits(H, depth) && Fits(W, depth) <==> Poolable(H, W, depth) && forall k :: 0 <= k < depth ==> EvenAt(H, W, k)
  {
    if Fits(H, depth) && Fits(W, depth) {
      forall k | 0 <= k < depth
        ensures Halve(H, k) >= 2 && Halve(W, k) >= 2 && EvenAt(H, W, k)
      {
      }
    }
    if Poolable(H, W, depth) && forall k :: 0 <= k < depth ==> EvenAt(H, W, k) {
      forall k | 0 <= k < depth
        ensures Halve(H, k) % 2 == 0 && Halve(H, k) > 0 && Halve(W, k) % 2 == 0 && Halve(W, k) > 0
      {
        assert EvenAt(H, W, k);
      }
    }
  }

  /** `forward(x)` for an input of height `h` and width `w` with the
      network's input channels; with dynamic padding the input is padded
      first and the output sliced back. Every failure is a torch
      `RuntimeError`; an empty height or width already fails in the first
      3-by-3 convolution, whose output would be empty. `received` lists the
      levels whose skip tensors the up blocks popped, in order. */
  method Forward(net: Net, h: nat, w: nat) returns (r: Result<Shape, PyError>, received: seq<nat>)
    requires Chained(net)
    ensures h == 0 || w == 0 ==> r == Err(RuntimeError)
    ensures !net.dynamicPadding ==>
              (r.Ok? <==> h > 0 && w > 0 && SkipsMatch(net) && Fits(h, net.Depth()) && Fits(w, net.Depth()))
    ensures net.dynamicPadding ==> (r.Ok? <==> h > 0 && w > 0 && SkipsMatch(net))
    ensures r.Err? ==> r.error == RuntimeError
    ensures r.Ok? ==> r.value == Shape(net.outConv.outCh, h, w)
    ensures r.Ok? ==> |received| == net.Depth() && forall i :: 0 <= i < |received| ==> received[i] == net.Depth() - 1 - i
  {
    if h == 0 || w == 0 {
      return Err(RuntimeError), [];
    }
    var depth := net.Depth();
    var H, W := h, w;
    var a := GetPadAmt(h, w, depth);
    if net.dynamicPadding {
      H, W := h + a.top + a.bottom, w + a.left + a.right;
      FitsIffDivisible(H, depth);
      FitsIffDivisible(W, depth);
    }
    FitsAsChecked(H, W, depth);
    var ok, skips, x := Encode(net, H, W);
    if !ok {
      return Err(RuntimeError), [];
    }
    // the bottleneck output is not a skip tensor
    var y;
    ok, received, y := Decode(net, skips[..depth], x, H, W);
    if !ok {
      return Err(RuntimeError), received;
    }
    y := Shape(net.outConv.outCh, y.h, y.w);
    if net.dynamicPadding {
      var loc := GetUnpadLoc(h, w, a);
      y := Shape(y.ch, SliceLength(y.h, loc.rows), SliceLength(y.w, loc.cols));
    }
    r := Ok(y);
  }

  /** A 3-by-4 input to a depth-1 network: with dynamic padding it is
      padded to 4 by 4 and succeeds; without, the odd height fails. */
  method OddHeightNeedsPadding(net: Net) returns (padded: bool, unpadded: bool)
    requires Chained(net) && SkipsMatch(net) && net.Depth() == 1
    ensures padded && !unpadded
  {
    var r1, _ := Forward(net.(dynamicPadding := true), 3, 4);
    var r2, _ := Forward(net.(dynamicPadding := false), 3, 4);
    assert !Fits(3, 1) by {
      assert Halve(3, 0) == 3;
    }
    padded, unpadded := r1.Ok?, r2.Ok?;
  }
}
