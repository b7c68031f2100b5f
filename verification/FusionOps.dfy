/** The tensor operations of the CPU fusion net: flat row-major buffers against what they mean per
    channel, row and column. Arithmetic is over the reals. */
module FusionOps {
  import opened Bytes
  import opened Grid

  /** c channels of h rows of w values, row-major in one buffer. */
  datatype Tensor = Tensor(d: seq<real>, c: nat, h: nat, w: nat) {
    predicate Valid() { h >= 1 && w >= 1 && |d| == c * h * w }
  }

  /** A weight tensor as loaded: dimensions and values. */
  datatype Weights = Weights(dims: seq<int>, d: seq<real>)

  // ----- Flat indices

  function Flat(c: nat, y: nat, x: nat, h: nat, w: nat): nat { (c * h + y) * w + x }

  /** A flat index of an element lies in the buffer. */
  lemma FlatInside(c: nat, y: nat, x: nat, n: nat, h: nat, w: nat)
    requires c < n && y < h && x < w
    ensures Flat(c, y, x, h, w) < n * h * w
  {
    RowMajor(c, y, n, h);
    RowMajor(c * h + y, x, n * h, w);
  }

  /** And it names that element only. */
  lemma FlatSplits(c: nat, y: nat, x: nat, h: nat, w: nat)
    requires y < h && x < w
    ensures var i := Flat(c, y, x, h, w); ColumnOf(i, w) == x && RowOf(i, h, w) == y && ChannelOf(i, h, w) == c
  {
    Quotient(c * h + y, x, w);
    Quotient(c, y, h);
  }

  lemma Quotient(q: nat, r: nat, m: nat)
    requires r < m
    ensures (q * m + r) / m == q && (q * m + r) % m == r
  {
    UniqueRemainder(q * m + r, m, q, r);
  }

  /** The row, column and channel of a flat index. */
  function RowOf(i: nat, h: nat, w: nat): nat
    requires h >= 1 && w >= 1
  {
    i / w % h
  }

  function ColumnOf(i: nat, w: nat): nat
    requires w >= 1
  {
    i % w
  }

  function ChannelOf(i: nat, h: nat, w: nat): nat
    requires h >= 1 && w >= 1
  {
    i / w / h
  }

  /** Every index of the buffer is a flat index. */
  lemma FlatCovers(i: nat, n: nat, h: nat, w: nat)
    requires h >= 1 && w >= 1 && i < n * h * w
    ensures ChannelOf(i, h, w) < n && RowOf(i, h, w) < h && ColumnOf(i, w) < w
    ensures Flat(ChannelOf(i, h, w), RowOf(i, h, w), ColumnOf(i, w), h, w) == i
  {
    var q := i / w;
    assert i == q * w + i % w;
    if q >= n * h {
      Times(n * h, q, w);
    }
    assert q == q / h * h + q % h;
    if q / h >= n {
      Times(n, q / h, h);
    }
  }

  /** The buffer whose element (c, y, x) is f(c, y, x). */
  function Build(n: nat, h: nat, w: nat, f: (nat, nat, nat) -> real): (d: seq<real>)
    requires h >= 1 && w >= 1
    ensures |d| == n * h * w
  {
    seq(n * h * w, i requires 0 <= i < n * h * w => f(ChannelOf(i, h, w), RowOf(i, h, w), ColumnOf(i, w)))
  }

  lemma BuildAt(n: nat, h: nat, w: nat, f: (nat, nat, nat) -> real, c: nat, y: nat, x: nat)
    requires c < n && y < h && x < w
    ensures Flat(c, y, x, h, w) < n * h * w && Build(n, h, w, f)[Flat(c, y, x, h, w)] == f(c, y, x)
  {
    FlatInside(c, y, x, n, h, w);
    FlatSplits(c, y, x, h, w);
  }

  // ----- The 3x3 convolution

  /** The value at (c, y, x), zero outside the image. */
  function Padded(t: Tensor, c: nat, y: int, x: int): real {
    if 0 <= y < t.h && 0 <= x < t.w && Flat(c, y, x, t.h, t.w) < |t.d| then t.d[Flat(c, y, x, t.h, t.w)] else 0.0
  }

  /** Kernel element (co, ci, ky, kx). */
  function Kernel(k: Weights, inputs: nat, co: nat, a: TapIx): real {
    if KernelIndex(inputs, co, a) < |k.d| then k.d[KernelIndex(inputs, co, a)] else 0.0
  }

  function KernelIndex(inputs: nat, co: nat, a: TapIx): nat {
    ((co * inputs + a.ci) * 3 + a.ky) * 3 + a.kx
  }

  /** An input channel, and a row and column of the kernel. */
  datatype TapIx = TapIx(ci: nat, ky: nat, kx: nat)

  /** Where the kernel is placed. */
  datatype Spot = Spot(stride: nat, co: nat, oy: nat, ox: nat)

  function Tap(t: Tensor, k: Weights, s: Spot, a: TapIx): real {
    Padded(t, a.ci, s.oy * s.stride - 1 + a.ky, s.ox * s.stride - 1 + a.kx) * Kernel(k, t.c, s.co, a)
  }

  function RowSum(t: Tensor, k: Weights, s: Spot, ci: nat, ky: nat, n: nat): real {
    if n == 0 then 0.0 else RowSum(t, k, s, ci, ky, n - 1) + Tap(t, k, s, TapIx(ci, ky, n - 1))
  }

  function PlaneSum(t: Tensor, k: Weights, s: Spot, ci: nat, n: nat): real {
    if n == 0 then 0.0 else PlaneSum(t, k, s, ci, n - 1) + RowSum(t, k, s, ci, n - 1, 3)
  }

  function ChannelSum(t: Tensor, k: Weights, s: Spot, n: nat): real {
    if n == 0 then 0.0 else ChannelSum(t, k, s, n - 1) + PlaneSum(t, k, s, n - 1, 3)
  }

  function Bias(b: Weights, co: nat): real {
    if co < |b.d| then b.d[co] else 0.0
  }

  /** The cross-correlation of the zero-padded image with the kernel, at one place. */
  function Correlation(t: Tensor, k: Weights, b: Weights, s: Spot): real {
    Bias(b, s.co) + ChannelSum(t, k, s, t.c)
  }

  /** The output extent for an input extent, with padding 1 and kernel 3. */
  function OutSize(n: nat, stride: nat): (r: nat)
    requires n >= 1 && stride >= 1
    ensures r >= 1
  {
    (n + 2 - 3) / stride + 1
  }

  function Conv(t: Tensor, k: Weights, b: Weights, outputs: nat, stride: nat): (o: Tensor)
    requires t.Valid() && stride >= 1
    ensures o.Valid() && o.c == outputs && o.h == OutSize(t.h, stride) && o.w == OutSize(t.w, stride)
  {
    var h, w := OutSize(t.h, stride), OutSize(t.w, stride);
    Tensor(Build(outputs, h, w, (co: nat, oy: nat, ox: nat) => Correlation(t, k, b, Spot(stride, co, oy, ox))),
           outputs, h, w)
  }

  /** A kernel from `inputs` to `outputs` channels. */
  predicate KernelShaped(k: Weights, outputs: nat, inputs: nat) {
    k.dims == [outputs, inputs, 3, 3] && |k.d| == outputs * inputs * 9
  }

  /** With its bias. */
  predicate ConvShaped(k: Weights, b: Weights, outputs: nat, inputs: nat) {
    KernelShaped(k, outputs, inputs) && |b.d| == outputs
  }

  lemma KernelInside(outputs: nat, inputs: nat, co: nat, a: TapIx)
    requires co < outputs && a.ci < inputs && a.ky < 3 && a.kx < 3
    ensures KernelIndex(inputs, co, a) < outputs * inputs * 9
  {
    RowMajor(co, a.ci, outputs, inputs);
  }

  /** The three inner loops: one output value. */
  method ConvPoint(t: Tensor, k: Weights, b: Weights, outputs: nat, p: Spot) returns (s: real)
    requires t.Valid() && ConvShaped(k, b, outputs, t.c) && p.co < outputs
    ensures s == Correlation(t, k, b, p)
  {
    s := b.d[p.co];
    var ci := 0;
    while ci < t.c
      invariant 0 <= ci <= t.c && s == Bias(b, p.co) + ChannelSum(t, k, p, ci)
    {
      s := ConvPlane(t, k, outputs, p, ci, s);
      ci := ci + 1;
    }
  }

  method ConvPlane(t: Tensor, k: Weights, outputs: nat, p: Spot, ci: nat, s0: real) returns (s: real)
    requires t.Valid() && KernelShaped(k, outputs, t.c) && p.co < outputs && ci < t.c
    ensures s == s0 + PlaneSum(t, k, p, ci, 3)
  {
    hide Tap, KernelShaped;
    s := s0;
    var ky := 0;
    while ky < 3
      invariant 0 <= ky <= 3 && s == s0 + PlaneSum(t, k, p, ci, ky)
    {
      ghost var before := s;
      var kx := 0;
      while kx < 3
        invariant 0 <= kx <= 3 && s == before + RowSum(t, k, p, ci, ky, kx)
      {
        s := ConvTap(t, k, outputs, p, TapIx(ci, ky, kx), s);
        kx := kx + 1;
      }
      ky := ky + 1;
    }
  }

  /** What a tap reads of the image: inside the buffer, or nothing. */
  lemma ImageValue(t: Tensor, c: nat, iy: int, ix: int)
    requires t.Valid() && c < t.c
    ensures 0 <= iy < t.h && 0 <= ix < t.w ==>
      Flat(c, iy, ix, t.h, t.w) < |t.d| && Padded(t, c, iy, ix) == t.d[Flat(c, iy, ix, t.h, t.w)]
    ensures !(0 <= iy < t.h && 0 <= ix < t.w) ==> Padded(t, c, iy, ix) == 0.0
  {
    hide Flat;
    if 0 <= iy < t.h && 0 <= ix < t.w {
      FlatInside(c, iy, ix, t.c, t.h, t.w);
    }
  }

  /** And of the kernel. */
  lemma KernelValue(k: Weights, outputs: nat, inputs: nat, co: nat, a: TapIx)
    requires KernelShaped(k, outputs, inputs) && co < outputs && a.ci < inputs && a.ky < 3 && a.kx < 3
    ensures KernelIndex(inputs, co, a) < |k.d| && Kernel(k, inputs, co, a) == k.d[KernelIndex(inputs, co, a)]
  {
    hide KernelIndex;
    KernelInside(outputs, inputs, co, a);
  }

  lemma TapAt(t: Tensor, k: Weights, p: Spot, a: TapIx, iy: int, ix: int)
    requires iy == p.oy * p.stride - 1 + a.ky && ix == p.ox * p.stride - 1 + a.kx
    ensures Tap(t, k, p, a) == Padded(t, a.ci, iy, ix) * Kernel(k, t.c, p.co, a)
  {
    hide Padded, Kernel;
  }

  /** The body of the innermost loop: a tap off the image is skipped. */
  method ConvTap(t: Tensor, k: Weights, outputs: nat, p: Spot, a: TapIx, s0: real) returns (s: real)
    requires t.Valid() && KernelShaped(k, outputs, t.c) && p.co < outputs && a.ci < t.c && a.ky < 3 && a.kx < 3
    ensures s == s0 + Tap(t, k, p, a)
  {
    hide Tap, Padded, Kernel, Flat, KernelIndex, KernelShaped;
    var iy, ix := p.oy * p.stride - 1 + a.ky, p.ox * p.stride - 1 + a.kx;
    s := s0;
    TapAt(t, k, p, a, iy, ix);
    ImageValue(t, a.ci, iy, ix);
    KernelValue(k, outputs, t.c, p.co, a);
    if iy >= 0 && iy < t.h && ix >= 0 && ix < t.w {
      s := s + t.d[Flat(a.ci, iy, ix, t.h, t.w)] * k.d[KernelIndex(t.c, p.co, a)];
    }
  }

  lemma FlatSteps(c: nat, y: nat, x: nat, h: nat, w: nat)
    ensures Flat(c, y, x + 1, h, w) == Flat(c, y, x, h, w) + 1
    ensures Flat(c, y + 1, 0, h, w) == Flat(c, y, w, h, w)
    ensures Flat(c + 1, 0, 0, h, w) == Flat(c, h, 0, h, w)
    ensures Flat(0, 0, 0, h, w) == 0
  {
    assert (c * h + (y + 1)) * w == (c * h + y) * w + w;
    assert (c + 1) * h == c * h + h;
  }

  /** conv3: the output loops, writing the buffer in order. */
  method Conv3(t: Tensor, k: Weights, b: Weights, stride: nat) returns (o: Tensor)
    requires t.Valid() && stride >= 1 && |k.dims| == 4 && k.dims[0] >= 0 && ConvShaped(k, b, k.dims[0], t.c)
    ensures o == Conv(t, k, b, k.dims[0], stride)
  {
    hide Correlation, Build, Flat, ConvShaped;
    var outputs, h, w := k.dims[0], OutSize(t.h, stride), OutSize(t.w, stride);
    var d := new real[outputs * h * w](i => 0.0);
    ghost var all := Conv(t, k, b, outputs, stride);
    FlatSteps(0, 0, 0, h, w);
    var co := 0;
    while co < outputs
      invariant 0 <= co <= outputs && ConvDone(d[..], all, co, 0, 0)
    {
      ConvChannel(t, k, b, outputs, stride, co, d);
      FlatSteps(co, 0, 0, h, w);
      co := co + 1;
    }
    FlatEnd(outputs, h, w);
    assert d[..] == all.d;
    return Tensor(d[..], outputs, h, w);
  }

  lemma FlatEnd(n: nat, h: nat, w: nat)
    ensures Flat(n, 0, 0, h, w) == n * h * w
  {
  }

  /** d agrees with the convolution on everything before row y, column x of channel c. */
  ghost predicate ConvDone(d: seq<real>, o: Tensor, c: nat, y: nat, x: nat) {
    |d| == |o.d| && forall i :: 0 <= i < Flat(c, y, x, o.h, o.w) && i < |d| ==> d[i] == o.d[i]
  }

  /** One output channel. */
  method ConvChannel(t: Tensor, k: Weights, b: Weights, outputs: nat, stride: nat, co: nat, d: array<real>)
    requires t.Valid() && stride >= 1 && ConvShaped(k, b, outputs, t.c) && co < outputs
    requires ConvDone(d[..], Conv(t, k, b, outputs, stride), co, 0, 0)
    modifies d
    ensures ConvDone(d[..], Conv(t, k, b, outputs, stride), co, OutSize(t.h, stride), 0)
  {
    hide Correlation, Build, Flat, ConvShaped, Conv, OutSize;
    ghost var o := Conv(t, k, b, outputs, stride);
    var h, w := OutSize(t.h, stride), OutSize(t.w, stride);
    var oy := 0;
    while oy < h
      invariant 0 <= oy <= h && ConvDone(d[..], o, co, oy, 0)
    {
      var ox := 0;
      while ox < w
        invariant 0 <= ox <= w && ConvDone(d[..], o, co, oy, ox)
      {
        var p := Spot(stride, co, oy, ox);
        var s := ConvPoint(t, k, b, outputs, p);
        FlatInside(co, oy, ox, outputs, h, w);
        ConvAt(t, k, b, outputs, p);
        FlatSteps(co, oy, ox, h, w);
        d[Flat(co, oy, ox, h, w)] := s;
        ox := ox + 1;
      }
      FlatSteps(co, oy, 0, h, w);
      oy := oy + 1;
    }
  }

  /** Each output element is the zero-padded cross-correlation at its place. */
  lemma ConvAt(t: Tensor, k: Weights, b: Weights, outputs: nat, p: Spot)
    requires t.Valid() && p.stride >= 1
    requires p.co < outputs && p.oy < OutSize(t.h, p.stride) && p.ox < OutSize(t.w, p.stride)
    ensures var o := Conv(t, k, b, outputs, p.stride); var i := Flat(p.co, p.oy, p.ox, o.h, o.w);
      i < |o.d| && o.d[i] == Correlation(t, k, b, p)
  {
    hide Correlation, Build, Flat;
    BuildAt(outputs, OutSize(t.h, p.stride), OutSize(t.w, p.stride),
            (co: nat, oy: nat, ox: nat) => Correlation(t, k, b, Spot(p.stride, co, oy, ox)), p.co, p.oy, p.ox);
  }

  /** A buffer with the right element at every flat index is the built one. */
  lemma BuildIs(d: seq<real>, n: nat, h: nat, w: nat, f: (nat, nat, nat) -> real)
    requires h >= 1 && w >= 1 && |d| == n * h * w
    requires forall i :: 0 <= i < |d| ==> d[i] == f(ChannelOf(i, h, w), RowOf(i, h, w), ColumnOf(i, w))
    ensures d == Build(n, h, w, f)
  {
  }

  predicate AllZero(d: seq<real>) {
    forall i :: 0 <= i < |d| ==> d[i] == 0.0
  }

  /** A convolution with zero weights and bias is zero everywhere. */
  lemma ZeroConv(t: Tensor, k: Weights, b: Weights, outputs: nat, stride: nat, i: nat)
    requires t.Valid() && stride >= 1 && i < |Conv(t, k, b, outputs, stride).d|
    requires AllZero(k.d) && AllZero(b.d)
    ensures Conv(t, k, b, outputs, stride).d[i] == 0.0
  {
    hide Correlation, Flat, Build, AllZero, Conv, OutSize;
    var h, w := OutSize(t.h, stride), OutSize(t.w, stride);
    var co, oy, ox := ChannelOf(i, h, w), RowOf(i, h, w), ColumnOf(i, w);
    FlatCovers(i, outputs, h, w);
    ConvAt(t, k, b, outputs, Spot(stride, co, oy, ox));
    ZeroCorrelation(t, k, b, Spot(stride, co, oy, ox));
  }

  lemma ZeroCorrelation(t: Tensor, k: Weights, b: Weights, s: Spot)
    requires AllZero(k.d) && AllZero(b.d)
    ensures Correlation(t, k, b, s) == 0.0
  {
    hide ChannelSum;
    ZeroChannels(t, k, s, t.c);
  }

  lemma {:induction false} ZeroChannels(t: Tensor, k: Weights, s: Spot, n: nat)
    requires AllZero(k.d)
    ensures ChannelSum(t, k, s, n) == 0.0
  {
    hide RowSum;
    if n > 0 {
      ZeroChannels(t, k, s, n - 1);
      ZeroRow(t, k, s, n - 1, 0, 3);
      ZeroRow(t, k, s, n - 1, 1, 3);
      ZeroRow(t, k, s, n - 1, 2, 3);
      assert PlaneSum(t, k, s, n - 1, 1) == 0.0;
      assert PlaneSum(t, k, s, n - 1, 2) == 0.0;
    }
  }

  lemma ZeroTimes(x: real)
    ensures x * 0.0 == 0.0
  {
  }

  lemma {:induction false} ZeroRow(t: Tensor, k: Weights, s: Spot, ci: nat, ky: nat, n: nat)
    requires AllZero(k.d)
    ensures RowSum(t, k, s, ci, ky, n) == 0.0
  {
    hide Padded;
    if n > 0 {
      ZeroRow(t, k, s, ci, ky, n - 1);
      ZeroTimes(Padded(t, ci, s.oy * s.stride - 1 + ky, s.ox * s.stride - 1 + (n - 1)));
    }
  }

  // ----- Gated activation

  function Leaky(x: real): real {
    if x > 0.0 then x else 0.1 * x
  }

  /** The activated features, each scaled by its gate. */
  function Gate(a: Tensor, g: Tensor, sigm: real -> real): (o: Tensor)
    requires |a.d| == |g.d|
    ensures o.c == a.c && o.h == a.h && o.w == a.w && |o.d| == |a.d|
    ensures forall i :: 0 <= i < |a.d| ==> o.d[i] == Leaky(a.d[i]) * sigm(g.d[i])
  {
    Tensor(seq(|a.d|, i requires 0 <= i < |a.d| => Leaky(a.d[i]) * sigm(g.d[i])), a.c, a.h, a.w)
  }

  // ----- Bilinear upsampling

  /** The source coordinate of output position o: half-pixel centres, from m positions to n. */
  function Source(o: nat, n: nat, m: nat): real
    requires m >= 1
  {
    (o as real + 0.5) * n as real / m as real - 0.5
  }

  function Sample(t: Tensor, c: nat, y: nat, x: nat): real {
    if Flat(c, y, x, t.h, t.w) < |t.d| then t.d[Flat(c, y, x, t.h, t.w)] else 0.0
  }

  /** The rows and columns around a source coordinate, and its fractions. */
  datatype Around = Around(ya: nat, yb: nat, xa: nat, xb: nat, fx: real, fy: real)

  function AroundOf(t: Tensor, oh: nat, ow: nat, oy: nat, ox: nat): Around
    requires t.Valid() && oh >= 1 && ow >= 1
  {
    var iy, ix := Source(oy, t.h, oh), Source(ox, t.w, ow);
    var y0, x0 := iy.Floor, ix.Floor;
    Around(Clamp(y0, t.h), Clamp(y0 + 1, t.h), Clamp(x0, t.w), Clamp(x0 + 1, t.w), ix - x0 as real, iy - y0 as real)
  }

  /** Four values: above left, above right, below left, below right. */
  datatype Quad = Quad(aa: real, ab: real, ba: real, bb: real)

  function Samples(t: Tensor, c: nat, p: Around): Quad {
    Quad(Sample(t, c, p.ya, p.xa), Sample(t, c, p.ya, p.xb), Sample(t, c, p.yb, p.xa), Sample(t, c, p.yb, p.xb))
  }

  /** Weighted by the fractions of the two coordinates. */
  function Blend(v: Quad, fx: real, fy: real): real {
    v.aa * (1.0 - fx) * (1.0 - fy) + v.ab * fx * (1.0 - fy) + v.ba * (1.0 - fx) * fy + v.bb * fx * fy
  }

  function UpAt(t: Tensor, oh: nat, ow: nat, c: nat, oy: nat, ox: nat): real
    requires t.Valid() && oh >= 1 && ow >= 1
  {
    var p := AroundOf(t, oh, ow, oy, ox);
    Blend(Samples(t, c, p), p.fx, p.fy)
  }

  function Up(t: Tensor, oh: nat, ow: nat): (o: Tensor)
    requires t.Valid() && oh >= 1 && ow >= 1
    ensures o.Valid() && o.c == t.c && o.h == oh && o.w == ow
  {
    Tensor(Build(t.c, oh, ow, (c: nat, oy: nat, ox: nat) => UpAt(t, oh, ow, c, oy, ox)), t.c, oh, ow)
  }

  // ----- What upsampling means

  function Part(w: real, v: real): real { w * v }

  function Dot(w: Quad, v: Quad): real {
    Part(w.aa, v.aa) + Part(w.ab, v.ab) + Part(w.ba, v.ba) + Part(w.bb, v.bb)
  }

  /** Non-negative weights that sum to one. */
  predicate Convex(w: Quad) {
    w.aa >= 0.0 && w.ab >= 0.0 && w.ba >= 0.0 && w.bb >= 0.0 && w.aa + w.ab + w.ba + w.bb == 1.0
  }

  /** A weight for the row times a weight for the column. */
  predicate Separable(w: Quad) { w.aa * w.bb == w.ab * w.ba }

  function Bilinear(fx: real, fy: real): Quad {
    Quad((1.0 - fx) * (1.0 - fy), fx * (1.0 - fy), (1.0 - fx) * fy, fx * fy)
  }

  lemma Products(fx: real, fy: real)
    requires 0.0 <= fx <= 1.0 && 0.0 <= fy <= 1.0
    ensures Convex(Bilinear(fx, fy))
  {
    var gx, gy := 1.0 - fx, 1.0 - fy;
    NonNegative(gx, gy);
    NonNegative(fx, gy);
    NonNegative(gx, fy);
    NonNegative(fx, fy);
    assert gx * gy + fx * gy == gy && gx * fy + fx * fy == fy;
  }

  lemma NonNegative(a: real, b: real)
    requires a >= 0.0 && b >= 0.0
    ensures a * b >= 0.0
  {
  }

  lemma BilinearSeparable(fx: real, fy: real)
    ensures Separable(Bilinear(fx, fy))
  {
    Exchange(1.0 - fx, 1.0 - fy, fx, fy);
  }

  lemma Exchange(a: real, b: real, c: real, d: real)
    ensures (a * b) * (c * d) == (c * b) * (a * d)
  {
    var ab, cd := a * b, c * d;
    assert ab * cd == a * (b * cd);
    assert b * cd == c * (b * d);
    assert a * (c * (b * d)) == c * (a * (b * d));
    assert a * (b * d) == b * (a * d);
    assert c * (b * (a * d)) == (c * b) * (a * d);
  }

  lemma BlendIsDot(v: Quad, fx: real, fy: real)
    ensures Blend(v, fx, fy) == Dot(Bilinear(fx, fy), v)
  {
    Reorder(v.aa, 1.0 - fx, 1.0 - fy);
    Reorder(v.ab, fx, 1.0 - fy);
    Reorder(v.ba, 1.0 - fx, fy);
    Reorder(v.bb, fx, fy);
  }

  lemma Reorder(v: real, a: real, b: real)
    ensures v * a * b == (a * b) * v
  {
  }

  function RowsOf(p: Around): Quad { Quad(p.ya as real, p.ya as real, p.yb as real, p.yb as real) }

  function ColumnsOf(p: Around): Quad { Quad(p.xa as real, p.xb as real, p.xa as real, p.xb as real) }

  /** The average of a coordinate that depends on the row only, or on the column only. */
  lemma Averages(fx: real, fy: real, a: real, b: real)
    ensures Dot(Bilinear(fx, fy), Quad(a, a, b, b)) == (1.0 - fy) * a + fy * b
    ensures Dot(Bilinear(fx, fy), Quad(a, b, a, b)) == (1.0 - fx) * a + fx * b
  {
    hide Dot, Bilinear;
    BilinearSums(fx, fy);
    RowAverage(Bilinear(fx, fy), 1.0 - fy, fy, a, b);
    ColumnAverage(Bilinear(fx, fy), 1.0 - fx, fx, a, b);
  }

  lemma BilinearSums(fx: real, fy: real)
    ensures var w := Bilinear(fx, fy);
      w.aa + w.ab == 1.0 - fy && w.ba + w.bb == fy && w.aa + w.ba == 1.0 - fx && w.ab + w.bb == fx
  {
  }

  lemma RowAverage(w: Quad, u: real, v: real, a: real, b: real)
    requires w.aa + w.ab == u && w.ba + w.bb == v
    ensures Dot(w, Quad(a, a, b, b)) == u * a + v * b
  {
    hide Part;
    PartsAdd(w.aa, w.ab, a);
    PartsAdd(w.ba, w.bb, b);
  }

  lemma ColumnAverage(w: Quad, u: real, v: real, a: real, b: real)
    requires w.aa + w.ba == u && w.ab + w.bb == v
    ensures Dot(w, Quad(a, b, a, b)) == u * a + v * b
  {
    hide Part;
    PartsAdd(w.aa, w.ba, a);
    PartsAdd(w.ab, w.bb, b);
  }

  lemma PartsAdd(p: real, q: real, x: real)
    ensures Part(p, x) + Part(q, x) == (p + q) * x
  {
  }

  /** A real coordinate moved into the image. */
  function ClampReal(x: real, n: nat): real
    requires n >= 1
  {
    if x < 0.0 then 0.0 else if x > (n - 1) as real then (n - 1) as real else x
  }

  /** Interpolating between the clamped neighbours of x gives x, clamped. */
  lemma BetweenNeighbours(x: real, n: nat)
    requires n >= 1
    ensures var f := x - x.Floor as real;
      (1.0 - f) * Clamp(x.Floor, n) as real + f * Clamp(x.Floor + 1, n) as real == ClampReal(x, n)
  {
    var f, m := x - x.Floor as real, x.Floor as real;
    var a, b := Clamp(x.Floor, n) as real, Clamp(x.Floor + 1, n) as real;
    if 0 <= x.Floor && x.Floor + 1 < n {
      assert a == m && b == m + 1.0;
      assert (1.0 - f) * m + f * (m + 1.0) == m + f;
    } else {
      assert a == b;
      assert (1.0 - f) * a + f * a == a;
    }
  }

  /** The source coordinate, with pixel centres at halves: (2 o + 1) n over 2 m, less a half. */
  lemma HalfPixel(o: nat, n: nat, m: nat)
    requires m >= 1
    ensures Source(o, n, m) == ((2 * o + 1) * n) as real / (2 * m) as real - 0.5
  {
    var a, d := (o as real + 0.5) * n as real, m as real;
    Doubled(o, n);
    HalvedQuotient(a, d);
    assert (2 * m) as real == 2.0 * d;
  }

  lemma Doubled(o: nat, n: nat)
    ensures ((2 * o + 1) * n) as real == 2.0 * ((o as real + 0.5) * n as real)
  {
    var p := (2 * o + 1) * n;
    RealProduct(2 * o + 1, n);
    assert (2 * o + 1) as real == 2.0 * (o as real + 0.5);
    Regroup(o as real + 0.5, n as real);
  }

  lemma Regroup(x: real, y: real)
    ensures (2.0 * x) * y == 2.0 * (x * y)
  {
  }

  lemma {:induction false} RealProduct(a: nat, b: nat)
    ensures (a * b) as real == a as real * b as real
  {
    if a > 0 {
      RealProduct(a - 1, b);
      assert a * b == (a - 1) * b + b;
      OneLess(a as real, b as real);
    }
  }

  lemma OneLess(x: real, y: real)
    ensures (x - 1.0) * y + y == x * y
  {
  }

  lemma HalvedQuotient(a: real, d: real)
    requires d > 0.0
    ensures (2.0 * a) / (2.0 * d) == a / d
  {
    var q := a / d;
    assert q * d == a;
    assert q * (2.0 * d) == 2.0 * a;
    QuotientIs(2.0 * a, 2.0 * d, q);
  }

  lemma QuotientIs(x: real, y: real, q: real)
    requires y > 0.0 && q * y == x
    ensures x / y == q
  {
  }

  /** An upsampled value is a bilinear interpolation: a convex combination of four samples of its own
      channel, at adjacent rows and columns of the image, whose weights are a product of row and column
      weights that average to the source coordinate, clamped into the image. */
  lemma UpConvex(t: Tensor, oh: nat, ow: nat, c: nat, oy: nat, ox: nat) returns (p: Around, w: Quad)
    requires t.Valid() && oh >= 1 && ow >= 1 && c < t.c
    ensures p.ya <= p.yb <= p.ya + 1 && p.yb < t.h && p.xa <= p.xb <= p.xa + 1 && p.xb < t.w
    ensures Convex(w) && Separable(w)
    ensures Dot(w, RowsOf(p)) == ClampReal(((2 * oy + 1) * t.h) as real / (2 * oh) as real - 0.5, t.h)
    ensures Dot(w, ColumnsOf(p)) == ClampReal(((2 * ox + 1) * t.w) as real / (2 * ow) as real - 0.5, t.w)
    ensures UpAt(t, oh, ow, c, oy, ox) == Dot(w, Samples(t, c, p))
  {
    hide Sample, Source, Dot, Separable, Convex, Blend, ClampReal, Bilinear;
    p := AroundOf(t, oh, ow, oy, ox);
    w := Bilinear(p.fx, p.fy);
    Products(p.fx, p.fy);
    BilinearSeparable(p.fx, p.fy);
    WeightsAverage(t, oh, ow, oy, ox);
    HalfPixel(oy, t.h, oh);
    HalfPixel(ox, t.w, ow);
    BlendIsDot(Samples(t, c, p), p.fx, p.fy);
  }

  lemma WeightsAverage(t: Tensor, oh: nat, ow: nat, oy: nat, ox: nat)
    requires t.Valid() && oh >= 1 && ow >= 1
    ensures var p := AroundOf(t, oh, ow, oy, ox);
      && Dot(Bilinear(p.fx, p.fy), RowsOf(p)) == ClampReal(Source(oy, t.h, oh), t.h)
      && Dot(Bilinear(p.fx, p.fy), ColumnsOf(p)) == ClampReal(Source(ox, t.w, ow), t.w)
  {
    hide Source, Dot, ClampReal, Bilinear;
    var p := AroundOf(t, oh, ow, oy, ox);
    Averages(p.fx, p.fy, p.ya as real, p.yb as real);
    Averages(p.fx, p.fy, p.xa as real, p.xb as real);
    BetweenNeighbours(Source(oy, t.h, oh), t.h);
    BetweenNeighbours(Source(ox, t.w, ow), t.w);
  }

  /** So it lies between the least and the greatest value of its own channel. */
  lemma UpWithinChannel(t: Tensor, oh: nat, ow: nat, c: nat, oy: nat, ox: nat, lo: real, hi: real)
    requires t.Valid() && oh >= 1 && ow >= 1 && c < t.c
    requires forall y: nat, x: nat :: y < t.h && x < t.w ==> lo <= Sample(t, c, y, x) <= hi
    ensures lo <= UpAt(t, oh, ow, c, oy, ox) <= hi
  {
    hide Sample, Source, Dot, Separable, Convex, UpAt;
    var p, w := UpConvex(t, oh, ow, c, oy, ox);
    DotBetween(w, Samples(t, c, p), lo, hi);
  }

  lemma DotBetween(w: Quad, v: Quad, lo: real, hi: real)
    requires Convex(w) && lo <= v.aa <= hi && lo <= v.ab <= hi && lo <= v.ba <= hi && lo <= v.bb <= hi
    ensures lo <= Dot(w, v) <= hi
  {
    hide Dot;
    DotGrows(w, Quad(lo, lo, lo, lo), v);
    DotGrows(w, v, Quad(hi, hi, hi, hi));
    DotConstant(w, lo);
    DotConstant(w, hi);
  }

  lemma DotGrows(w: Quad, u: Quad, v: Quad)
    requires Convex(w) && u.aa <= v.aa && u.ab <= v.ab && u.ba <= v.ba && u.bb <= v.bb
    ensures Dot(w, u) <= Dot(w, v)
  {
    hide Part;
    Scaled(w.aa, u.aa, v.aa);
    Scaled(w.ab, u.ab, v.ab);
    Scaled(w.ba, u.ba, v.ba);
    Scaled(w.bb, u.bb, v.bb);
  }

  lemma Scaled(w: real, u: real, v: real)
    requires w >= 0.0 && u <= v
    ensures Part(w, u) <= Part(w, v)
  {
    NonNegative(w, v - u);
  }

  lemma DotConstant(w: Quad, x: real)
    requires Convex(w)
    ensures Dot(w, Quad(x, x, x, x)) == x
  {
    assert (w.aa + w.ab + w.ba + w.bb) * x == 1.0 * x;
  }

  lemma SourceOfSame(o: nat, n: nat)
    requires n >= 1
    ensures Source(o, n, n) == o as real
  {
    var x, m := o as real + 0.5, n as real;
    assert x * m / m == x;
  }

  /** Upsampling to the same size changes nothing. */
  lemma UpIdentity(t: Tensor)
    requires t.Valid()
    ensures Up(t, t.h, t.w) == t
  {
    hide Flat, UpAt;
    var f := (c: nat, oy: nat, ox: nat) => UpAt(t, t.h, t.w, c, oy, ox);
    forall i | 0 <= i < |t.d| ensures t.d[i] == f(ChannelOf(i, t.h, t.w), RowOf(i, t.h, t.w), ColumnOf(i, t.w)) {
      FlatCovers(i, t.c, t.h, t.w);
      UpSameAt(t, ChannelOf(i, t.h, t.w), RowOf(i, t.h, t.w), ColumnOf(i, t.w));
    }
    BuildIs(t.d, t.c, t.h, t.w, f);
  }

  lemma UpSameAt(t: Tensor, c: nat, y: nat, x: nat)
    requires t.Valid() && c < t.c && y < t.h && x < t.w
    ensures Flat(c, y, x, t.h, t.w) < |t.d| && UpAt(t, t.h, t.w, c, y, x) == t.d[Flat(c, y, x, t.h, t.w)]
  {
    hide Flat;
    SourceOfSame(y, t.h);
    SourceOfSame(x, t.w);
    FlatInside(c, y, x, t.c, t.h, t.w);
  }

  // ----- Concatenation

  function Cat(a: Tensor, b: Tensor): (o: Tensor)
    requires a.Valid() && b.Valid() && a.h == b.h && a.w == b.w
    ensures o.Valid() && o.c == a.c + b.c && o.h == a.h && o.w == a.w
  {
    Sizes(a.c, b.c, a.h, a.w);
    Tensor(a.d + b.d, a.c + b.c, a.h, a.w)
  }

  lemma Sizes(a: nat, b: nat, h: nat, w: nat)
    ensures (a + b) * h * w == a * h * w + b * h * w
  {
    assert (a + b) * h == a * h + b * h;
  }

  /** The channels of a, then those of b, each with its own rows and columns. */
  lemma CatChannels(a: Tensor, b: Tensor, c: nat, y: int, x: int)
    requires a.Valid() && b.Valid() && a.h == b.h && a.w == b.w && c < a.c + b.c
    ensures Padded(Cat(a, b), c, y, x) == if c < a.c then Padded(a, c, y, x) else Padded(b, c - a.c, y, x)
  {
    if 0 <= y < a.h && 0 <= x < a.w {
      FlatInside(c, y, x, a.c + b.c, a.h, a.w);
      if c < a.c {
        FlatInside(c, y, x, a.c, a.h, a.w);
      } else {
        FlatInside(c - a.c, y, x, b.c, a.h, a.w);
        FlatShift(a.c, c - a.c, y, x, a.h, a.w);
      }
    }
  }

  lemma FlatShift(a: nat, c: nat, y: nat, x: nat, h: nat, w: nat)
    ensures Flat(a + c, y, x, h, w) == a * h * w + Flat(c, y, x, h, w)
  {
    assert (a + c) * h == a * h + c * h;
    assert (a * h + (c * h + y)) * w == a * h * w + (c * h + y) * w;
  }

  // ----- The loops of gated, up and cat

  method Gated(a: Tensor, g: Tensor, sigm: real -> real) returns (o: Tensor)
    requires |a.d| == |g.d|
    ensures o == Gate(a, g, sigm)
  {
    hide Gate;
    ghost var all := Gate(a, g, sigm).d;
    var d := new real[|a.d|](i => 0.0);
    var i := 0;
    while i < d.Length
      invariant 0 <= i <= d.Length && forall j :: 0 <= j < i ==> d[j] == all[j]
    {
      d[i] := Leaky(a.d[i]) * sigm(g.d[i]);
      i := i + 1;
    }
    assert d[..] == all;
    return Tensor(d[..], a.c, a.h, a.w);
  }

  /** Element i of the output has been written when the loops over rows, columns and channels have
      come to (oy, ox, c). */
  predicate Written(i: nat, h: nat, w: nat, oy: nat, ox: nat, c: nat)
    requires h >= 1 && w >= 1
  {
    Before(RowOf(i, h, w), ColumnOf(i, w), ChannelOf(i, h, w), oy, ox, c)
  }

  predicate Before(y: int, x: int, k: int, oy: nat, ox: nat, c: nat) {
    y < oy || (y == oy && (x < ox || (x == ox && k < c)))
  }

  lemma WrittenNext(i: nat, n: nat, h: nat, w: nat, oy: nat, ox: nat, c: nat)
    requires h >= 1 && w >= 1 && i < n * h * w && Written(i, h, w, oy, ox, c + 1)
    ensures Written(i, h, w, oy, ox, c) || i == Flat(c, oy, ox, h, w)
  {
    hide Flat, RowOf, ColumnOf, ChannelOf;
    FlatCovers(i, n, h, w);
  }

  lemma WrittenRows(i: nat, n: nat, h: nat, w: nat, oy: nat, ox: nat)
    requires h >= 1 && w >= 1 && i < n * h * w
    ensures Written(i, h, w, oy, ox + 1, 0) <==> Written(i, h, w, oy, ox, n)
    ensures Written(i, h, w, oy + 1, 0, 0) <==> Written(i, h, w, oy, w, 0)
    ensures Written(i, h, w, h, 0, 0) && !Written(i, h, w, 0, 0, 0)
  {
    hide Flat, Before, RowOf, ColumnOf, ChannelOf;
    FlatCovers(i, n, h, w);
    BeforeRows(RowOf(i, h, w), ColumnOf(i, w), ChannelOf(i, h, w), n, h, w, oy, ox);
  }

  lemma BeforeRows(y: nat, x: nat, k: nat, n: nat, h: nat, w: nat, oy: nat, ox: nat)
    requires k < n && y < h && x < w
    ensures Before(y, x, k, oy, ox + 1, 0) <==> Before(y, x, k, oy, ox, n)
    ensures Before(y, x, k, oy + 1, 0, 0) <==> Before(y, x, k, oy, w, 0)
    ensures Before(y, x, k, h, 0, 0) && !Before(y, x, k, 0, 0, 0)
  {
  }

  ghost predicate UpDone(d: seq<real>, o: Tensor, oy: nat, ox: nat, c: nat)
    requires o.Valid()
  {
    |d| == |o.d| && forall i :: 0 <= i < |d| && Written(i, o.h, o.w, oy, ox, c) ==> d[i] == o.d[i]
  }

  lemma UpDoneSteps(d: seq<real>, o: Tensor, oy: nat, ox: nat)
    requires o.Valid()
    ensures UpDone(d, o, oy, ox, o.c) ==> UpDone(d, o, oy, ox + 1, 0)
    ensures UpDone(d, o, oy, o.w, 0) ==> UpDone(d, o, oy + 1, 0, 0)
    ensures |d| == |o.d| ==> UpDone(d, o, 0, 0, 0)
    ensures UpDone(d, o, o.h, 0, 0) ==> d == o.d
  {
    hide Written;
    forall i | 0 <= i < |o.d|
      ensures Written(i, o.h, o.w, oy, ox + 1, 0) <==> Written(i, o.h, o.w, oy, ox, o.c)
      ensures Written(i, o.h, o.w, oy + 1, 0, 0) <==> Written(i, o.h, o.w, oy, o.w, 0)
      ensures Written(i, o.h, o.w, o.h, 0, 0) && !Written(i, o.h, o.w, 0, 0, 0)
    {
      WrittenRows(i, o.c, o.h, o.w, oy, ox);
    }
  }

  lemma UpDoneWrite(d: seq<real>, o: Tensor, oy: nat, ox: nat, c: nat)
    requires o.Valid() && UpDone(d, o, oy, ox, c) && c < o.c && oy < o.h && ox < o.w
    ensures Flat(c, oy, ox, o.h, o.w) < |d|
    ensures UpDone(d[Flat(c, oy, ox, o.h, o.w) := o.d[Flat(c, oy, ox, o.h, o.w)]], o, oy, ox, c + 1)
  {
    hide Written, Flat;
    FlatInside(c, oy, ox, o.c, o.h, o.w);
    forall i | 0 <= i < |d| && Written(i, o.h, o.w, oy, ox, c + 1)
      ensures Written(i, o.h, o.w, oy, ox, c) || i == Flat(c, oy, ox, o.h, o.w)
    {
      WrittenNext(i, o.c, o.h, o.w, oy, ox, c);
    }
  }

  /** up: rows, columns, then channels, so the buffer is not written in order. */
  method Upsample(t: Tensor, oh: nat, ow: nat) returns (o: Tensor)
    requires t.Valid() && oh >= 1 && ow >= 1
    ensures o == Up(t, oh, ow)
  {
    hide Up, UpDone, Flat;
    ghost var all := Up(t, oh, ow);
    var d := new real[t.c * oh * ow](i => 0.0);
    UpDoneSteps(d[..], all, 0, 0);
    var oy := 0;
    while oy < oh
      invariant 0 <= oy <= oh && UpDone(d[..], all, oy, 0, 0)
    {
      UpRow(t, oh, ow, oy, d);
      oy := oy + 1;
    }
    UpDoneSteps(d[..], all, 0, 0);
    return Tensor(d[..], t.c, oh, ow);
  }

  method UpRow(t: Tensor, oh: nat, ow: nat, oy: nat, d: array<real>)
    requires t.Valid() && oh >= 1 && ow >= 1 && oy < oh && d.Length == t.c * oh * ow
    requires UpDone(d[..], Up(t, oh, ow), oy, 0, 0)
    modifies d
    ensures UpDone(d[..], Up(t, oh, ow), oy + 1, 0, 0)
  {
    hide Up, UpDone, Source, Clamp;
    ghost var all := Up(t, oh, ow);
    var iy := Source(oy, t.h, oh);
    var y0 := iy.Floor;
    var fy := iy - y0 as real;
    var ya, yb := Clamp(y0, t.h), Clamp(y0 + 1, t.h);
    var ox := 0;
    while ox < ow
      invariant 0 <= ox <= ow && UpDone(d[..], all, oy, ox, 0)
    {
      var ix := Source(ox, t.w, ow);
      var x0 := ix.Floor;
      var fx := ix - x0 as real;
      var xa, xb := Clamp(x0, t.w), Clamp(x0 + 1, t.w);
      UpPixel(t, oh, ow, oy, ox, Around(ya, yb, xa, xb, fx, fy), d);
      UpDoneSteps(d[..], all, oy, ox);
      ox := ox + 1;
    }
    UpDoneSteps(d[..], all, oy, 0);
  }

  /** The loop over channels. */
  method UpPixel(t: Tensor, oh: nat, ow: nat, oy: nat, ox: nat, p: Around, d: array<real>)
    requires t.Valid() && oh >= 1 && ow >= 1 && oy < oh && ox < ow && d.Length == t.c * oh * ow
    requires p == AroundOf(t, oh, ow, oy, ox) && UpDone(d[..], Up(t, oh, ow), oy, ox, 0)
    modifies d
    ensures UpDone(d[..], Up(t, oh, ow), oy, ox, t.c)
  {
    hide Up, UpDone, Flat, Samples, Blend, AroundOf;
    ghost var all := Up(t, oh, ow);
    var c := 0;
    while c < t.c
      invariant 0 <= c <= t.c && UpDone(d[..], all, oy, ox, c)
    {
      UpDoneWrite(d[..], all, oy, ox, c);
      UpElement(t, oh, ow, c, oy, ox);
      ghost var before := d[..];
      var k := Flat(c, oy, ox, oh, ow);
      d[k] := Blend(Samples(t, c, p), p.fx, p.fy);
      assert d[..] == before[k := all.d[k]];
      c := c + 1;
    }
  }

  lemma UpElement(t: Tensor, oh: nat, ow: nat, c: nat, oy: nat, ox: nat)
    requires t.Valid() && c < t.c && oy < oh && ox < ow
    ensures Flat(c, oy, ox, oh, ow) < |Up(t, oh, ow).d|
    ensures Up(t, oh, ow).d[Flat(c, oy, ox, oh, ow)] == UpAt(t, oh, ow, c, oy, ox)
  {
    hide Flat, UpAt, Build;
    BuildAt(t.c, oh, ow, (c: nat, oy: nat, ox: nat) => UpAt(t, oh, ow, c, oy, ox), c, oy, ox);
  }
}
