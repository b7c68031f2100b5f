/** What the 3x3 convolution does to a kernel with one entry, to a sum of kernels and to a bias: together
    these determine it for every kernel. */
module ConvLaws {
  import opened Bytes
  import opened Grid
  import opened FusionOps

  /** Channel c of the image at row y and column x, and zero off the image. */
  function Pixel(t: Tensor, c: nat, y: int, x: int): real
    requires t.Valid() && c < t.c
  {
    if 0 <= y < t.h && 0 <= x < t.w then
      FlatInside(c, y, x, t.c, t.h, t.w);
      t.d[(c * t.h + y) * t.w + x]
    else 0.0
  }

  lemma PixelIsPadded(t: Tensor, c: nat, y: int, x: int)
    requires t.Valid() && c < t.c
    ensures Padded(t, c, y, x) == Pixel(t, c, y, x)
  {
    ImageValue(t, c, y, x);
  }

  /** Element (co, oy, ox) of a buffer of n channels of h rows of w. */
  function Element(d: seq<real>, n: nat, h: nat, w: nat, co: nat, oy: nat, ox: nat): real
    requires |d| == n * h * w && co < n && oy < h && ox < w
  {
    FlatInside(co, oy, ox, n, h, w);
    d[(co * h + oy) * w + ox]
  }

  /** An element of a convolution. */
  function ConvElement(t: Tensor, k: Weights, b: Weights, outputs: nat, p: Spot): real
    requires t.Valid() && InOutput(t, outputs, p)
  {
    var o := Conv(t, k, b, outputs, p.stride);
    Element(o.d, outputs, o.h, o.w, p.co, p.oy, p.ox)
  }

  predicate InOutput(t: Tensor, outputs: nat, p: Spot)
    requires t.Valid()
  {
    p.stride >= 1 && p.co < outputs && p.oy < OutSize(t.h, p.stride) && p.ox < OutSize(t.w, p.stride)
  }

  lemma ElementIs(t: Tensor, k: Weights, b: Weights, outputs: nat, p: Spot)
    requires t.Valid() && InOutput(t, outputs, p)
    ensures ConvElement(t, k, b, outputs, p) == Correlation(t, k, b, p)
  {
    hide Correlation, Conv;
    ConvAt(t, k, b, outputs, p);
  }

  // ----- One kernel entry

  /** The kernel that is v at entry (co, ci, ky, kx), found in row-major order, and zero elsewhere. */
  predicate OneEntry(k: Weights, outputs: nat, inputs: nat, co: nat, a: TapIx, v: real) {
    && |k.d| == outputs * inputs * 9
    && forall j :: 0 <= j < |k.d| ==> k.d[j] == if j == 9 * (co * inputs + a.ci) + 3 * a.ky + a.kx then v else 0.0
  }

  predicate InKernel(outputs: nat, inputs: nat, co: nat, a: TapIx) {
    co < outputs && a.ci < inputs && a.ky < 3 && a.kx < 3
  }

  lemma KernelPlace(outputs: nat, inputs: nat, co: nat, a: TapIx)
    requires InKernel(outputs, inputs, co, a)
    ensures KernelIndex(inputs, co, a) == 9 * (co * inputs + a.ci) + 3 * a.ky + a.kx < outputs * inputs * 9
  {
    KernelInside(outputs, inputs, co, a);
  }

  /** Different entries are at different places. */
  lemma PlaceSplits(inputs: nat, co: nat, a: TapIx)
    requires a.ci < inputs && a.ky < 3 && a.kx < 3
    ensures var j := 9 * (co * inputs + a.ci) + 3 * a.ky + a.kx;
      j % 3 == a.kx && j / 3 % 3 == a.ky && j / 9 / inputs == co && j / 9 % inputs == a.ci
  {
    var m := co * inputs + a.ci;
    var j := 9 * m + 3 * a.ky + a.kx;
    UniqueRemainder(j, 3, 3 * m + a.ky, a.kx);
    UniqueRemainder(3 * m + a.ky, 3, m, a.ky);
    UniqueRemainder(j, 9, m, 3 * a.ky + a.kx);
    UniqueRemainder(m, inputs, co, a.ci);
  }

  lemma KernelIs(k: Weights, outputs: nat, inputs: nat, co: nat, a: TapIx, v: real, co': nat, a': TapIx)
    requires OneEntry(k, outputs, inputs, co, a, v) && InKernel(outputs, inputs, co, a)
    requires InKernel(outputs, inputs, co', a')
    ensures Kernel(k, inputs, co', a') == if co' == co && a' == a then v else 0.0
  {
    hide KernelIndex;
    KernelPlace(outputs, inputs, co', a');
    PlaceSplits(inputs, co, a);
    PlaceSplits(inputs, co', a');
  }

  lemma ZeroProduct(x: real)
    ensures x * 0.0 == 0.0
  {
  }

  /** What a tap reads, times the entry, if it is the entry's tap. */
  function Only(t: Tensor, a: TapIx, v: real, p: Spot, hit: bool): real {
    if hit then Padded(t, a.ci, p.oy * p.stride - 1 + a.ky, p.ox * p.stride - 1 + a.kx) * v else 0.0
  }

  lemma TapIs(t: Tensor, k: Weights, outputs: nat, co: nat, a: TapIx, v: real, p: Spot, a': TapIx)
    requires OneEntry(k, outputs, t.c, co, a, v) && InKernel(outputs, t.c, co, a) && InKernel(outputs, t.c, p.co, a')
    ensures Tap(t, k, p, a') == Only(t, a, v, p, p.co == co && a' == a)
  {
    hide Kernel, Padded;
    KernelIs(k, outputs, t.c, co, a, v, p.co, a');
    ZeroProduct(Padded(t, a'.ci, p.oy * p.stride - 1 + a'.ky, p.ox * p.stride - 1 + a'.kx));
  }

  lemma {:induction false} RowIs(t: Tensor, k: Weights, outputs: nat, co: nat, a: TapIx, v: real, p: Spot,
                                 ci: nat, ky: nat, n: nat)
    requires OneEntry(k, outputs, t.c, co, a, v) && InKernel(outputs, t.c, co, a) && p.co < outputs
    requires ci < t.c && ky < 3 && n <= 3
    ensures RowSum(t, k, p, ci, ky, n) == Only(t, a, v, p, p.co == co && ci == a.ci && ky == a.ky && a.kx < n)
  {
    hide Tap, Padded, OneEntry;
    if n > 0 {
      RowIs(t, k, outputs, co, a, v, p, ci, ky, n - 1);
      TapIs(t, k, outputs, co, a, v, p, TapIx(ci, ky, n - 1));
    }
  }

  lemma {:induction false} PlaneIs(t: Tensor, k: Weights, outputs: nat, co: nat, a: TapIx, v: real, p: Spot,
                                   ci: nat, n: nat)
    requires OneEntry(k, outputs, t.c, co, a, v) && InKernel(outputs, t.c, co, a) && p.co < outputs
    requires ci < t.c && n <= 3
    ensures PlaneSum(t, k, p, ci, n) == Only(t, a, v, p, p.co == co && ci == a.ci && a.ky < n)
  {
    hide RowSum, Padded, OneEntry;
    if n > 0 {
      PlaneIs(t, k, outputs, co, a, v, p, ci, n - 1);
      RowIs(t, k, outputs, co, a, v, p, ci, n - 1, 3);
    }
  }

  lemma {:induction false} ChannelsAre(t: Tensor, k: Weights, outputs: nat, co: nat, a: TapIx, v: real, p: Spot, n: nat)
    requires OneEntry(k, outputs, t.c, co, a, v) && InKernel(outputs, t.c, co, a) && p.co < outputs && n <= t.c
    ensures ChannelSum(t, k, p, n) == Only(t, a, v, p, p.co == co && a.ci < n)
  {
    hide PlaneSum, Padded, OneEntry;
    if n > 0 {
      ChannelsAre(t, k, outputs, co, a, v, p, n - 1);
      PlaneIs(t, k, outputs, co, a, v, p, n - 1, 3);
    }
  }

  /** A kernel with the one entry v at (co, ci, ky, kx), without bias, copies input channel ci, times v and
      moved by the entry's row and column, to output channel co, at any stride, and leaves every other
      output channel zero. */
  lemma OneEntryMoves(t: Tensor, k: Weights, b: Weights, outputs: nat, co: nat, a: TapIx, v: real, p: Spot)
    requires t.Valid() && InOutput(t, outputs, p) && AllZero(b.d)
    requires co < outputs && a.ci < t.c && a.ky < 3 && a.kx < 3 && OneEntry(k, outputs, t.c, co, a, v)
    ensures ConvElement(t, k, b, outputs, p) ==
      if p.co == co then v * Pixel(t, a.ci, p.oy * p.stride - 1 + a.ky, p.ox * p.stride - 1 + a.kx) else 0.0
  {
    hide ConvElement, ChannelSum, OneEntry, Padded, Pixel;
    ElementIs(t, k, b, outputs, p);
    ChannelsAre(t, k, outputs, co, a, v, p, t.c);
    PixelIsPadded(t, a.ci, p.oy * p.stride - 1 + a.ky, p.ox * p.stride - 1 + a.kx);
  }

  // ----- Sums of kernels

  predicate SumOf(k: Weights, k1: Weights, k2: Weights) {
    |k.d| == |k1.d| == |k2.d| && forall j :: 0 <= j < |k.d| ==> k.d[j] == k1.d[j] + k2.d[j]
  }

  lemma TapAdds(t: Tensor, k: Weights, k1: Weights, k2: Weights, p: Spot, a: TapIx)
    requires SumOf(k, k1, k2)
    ensures Tap(t, k, p, a) == Tap(t, k1, p, a) + Tap(t, k2, p, a)
  {
    hide Padded, KernelIndex;
    TwoProducts(Padded(t, a.ci, p.oy * p.stride - 1 + a.ky, p.ox * p.stride - 1 + a.kx),
                Kernel(k1, t.c, p.co, a), Kernel(k2, t.c, p.co, a));
  }

  lemma TwoProducts(x: real, a: real, b: real)
    ensures x * (a + b) == x * a + x * b
  {
  }

  lemma {:induction false} RowAdds(t: Tensor, k: Weights, k1: Weights, k2: Weights, p: Spot, ci: nat, ky: nat, n: nat)
    requires SumOf(k, k1, k2)
    ensures RowSum(t, k, p, ci, ky, n) == RowSum(t, k1, p, ci, ky, n) + RowSum(t, k2, p, ci, ky, n)
  {
    hide Tap, SumOf;
    if n > 0 {
      RowAdds(t, k, k1, k2, p, ci, ky, n - 1);
      TapAdds(t, k, k1, k2, p, TapIx(ci, ky, n - 1));
    }
  }

  lemma {:induction false} PlaneAdds(t: Tensor, k: Weights, k1: Weights, k2: Weights, p: Spot, ci: nat, n: nat)
    requires SumOf(k, k1, k2)
    ensures PlaneSum(t, k, p, ci, n) == PlaneSum(t, k1, p, ci, n) + PlaneSum(t, k2, p, ci, n)
  {
    hide RowSum, SumOf;
    if n > 0 {
      PlaneAdds(t, k, k1, k2, p, ci, n - 1);
      RowAdds(t, k, k1, k2, p, ci, n - 1, 3);
    }
  }

  lemma {:induction false} ChannelsAdd(t: Tensor, k: Weights, k1: Weights, k2: Weights, p: Spot, n: nat)
    requires SumOf(k, k1, k2)
    ensures ChannelSum(t, k, p, n) == ChannelSum(t, k1, p, n) + ChannelSum(t, k2, p, n)
  {
    hide PlaneSum, SumOf;
    if n > 0 {
      ChannelsAdd(t, k, k1, k2, p, n - 1);
      PlaneAdds(t, k, k1, k2, p, n - 1, 3);
    }
  }

  /** The convolution is additive in the kernel. */
  lemma KernelsAdd(t: Tensor, k: Weights, k1: Weights, k2: Weights, b: Weights, outputs: nat, p: Spot)
    requires t.Valid() && InOutput(t, outputs, p) && SumOf(k, k1, k2) && AllZero(b.d)
    ensures ConvElement(t, k, b, outputs, p) ==
      ConvElement(t, k1, b, outputs, p) + ConvElement(t, k2, b, outputs, p)
  {
    hide ConvElement, ChannelSum, SumOf;
    ElementIs(t, k, b, outputs, p);
    ElementIs(t, k1, b, outputs, p);
    ElementIs(t, k2, b, outputs, p);
    ChannelsAdd(t, k, k1, k2, p, t.c);
  }

  /** The bias of an output channel is added to each of its elements. */
  lemma BiasAdds(t: Tensor, k: Weights, b: Weights, zero: Weights, outputs: nat, p: Spot)
    requires t.Valid() && InOutput(t, outputs, p) && |b.d| == outputs && AllZero(zero.d)
    ensures ConvElement(t, k, b, outputs, p) == ConvElement(t, k, zero, outputs, p) + b.d[p.co]
  {
    hide ConvElement, ChannelSum;
    ElementIs(t, k, b, outputs, p);
    ElementIs(t, k, zero, outputs, p);
  }

  // ----- Extents

  lemma AtMostQuotient(i: nat, n: nat, s: nat)
    requires s >= 1
    ensures i <= n / s <==> i * s <= n
  {
    if i <= n / s {
      Times(i, n / s, s);
    } else {
      Times(n / s + 1, i, s);
    }
  }

  /** There is an output position for exactly the placements, a stride apart, of three rows or columns that
      fit in the image with its border of one. */
  lemma Placements(n: nat, stride: nat, i: nat)
    requires n >= 1 && stride >= 1
    ensures i < OutSize(n, stride) <==> i * stride + 3 <= n + 2
  {
    AtMostQuotient(i, n - 1, stride);
  }
}
