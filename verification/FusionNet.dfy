/** The fusion U-net on the CPU: encoder, decoder with skip connections, and the output convolution. */
module FusionNet {
  import opened FusionOps

  /** A loaded model: weight tensors by name. */
  datatype Model = Model(tensors: map<string, Weights>, valid: bool)

  /** A missing tensor is an empty one. */
  function Get(m: Model, name: string): Weights {
    if name in m.tensors then m.tensors[name] else Weights([], [])
  }

  /** A convolution layer of the model, by its name prefix. */
  predicate LayerOk(m: Model, p: string, outputs: nat, inputs: nat) {
    ConvShaped(Get(m, p + ".weight"), Get(m, p + ".bias"), outputs, inputs)
  }

  predicate GatedOk(m: Model, p: string, outputs: nat, inputs: nat) {
    LayerOk(m, p + ".feat", outputs, inputs) && LayerOk(m, p + ".gate", outputs, inputs)
  }

  predicate Seq2Ok(m: Model, e: string, outputs: nat, inputs: nat) {
    GatedOk(m, e + ".0", outputs, inputs) && GatedOk(m, e + ".1", outputs, outputs)
  }

  /** The layers of a fusion net with 12 input channels and `base` channels on the first level. */
  predicate FusionShaped(m: Model, base: nat) {
    && base >= 1
    && Seq2Ok(m, "fusion.e1", base, 12)
    && Seq2Ok(m, "fusion.e2", 2 * base, base)
    && Seq2Ok(m, "fusion.e3", 3 * base, 2 * base)
    && Seq2Ok(m, "fusion.e4", 4 * base, 3 * base)
    && Seq2Ok(m, "fusion.d3", 3 * base, 7 * base)
    && Seq2Ok(m, "fusion.d2", 2 * base, 5 * base)
    && Seq2Ok(m, "fusion.d1", base, 3 * base)
    && LayerOk(m, "fusion.out", 3, base)
  }

  function Layer(m: Model, t: Tensor, p: string, outputs: nat, stride: nat): (o: Tensor)
    requires t.Valid() && stride >= 1
    ensures o.Valid() && o.c == outputs && o.h == OutSize(t.h, stride) && o.w == OutSize(t.w, stride)
  {
    Conv(t, Get(m, p + ".weight"), Get(m, p + ".bias"), outputs, stride)
  }

  function GatedLayer(m: Model, t: Tensor, p: string, outputs: nat, stride: nat, sigm: real -> real): (o: Tensor)
    requires t.Valid() && stride >= 1
    ensures o.Valid() && o.c == outputs && o.h == OutSize(t.h, stride) && o.w == OutSize(t.w, stride)
  {
    Gate(Layer(m, t, p + ".feat", outputs, stride), Layer(m, t, p + ".gate", outputs, stride), sigm)
  }

  /** With stride 1 the extent stays, with stride 2 it is halved, rounding up. */
  lemma Extents(n: nat)
    requires n >= 1
    ensures OutSize(n, 1) == n && OutSize(n, 2) == (n + 1) / 2
  {
  }

  /** Two gated layers; only the first one has the stride. */
  function Pair(m: Model, t: Tensor, e: string, outputs: nat, stride: nat, sigm: real -> real): (o: Tensor)
    requires t.Valid() && stride >= 1
    ensures o.Valid() && o.c == outputs && o.h == OutSize(t.h, stride) && o.w == OutSize(t.w, stride)
  {
    var a := GatedLayer(m, t, e + ".0", outputs, stride, sigm);
    Extents(a.h);
    Extents(a.w);
    GatedLayer(m, a, e + ".1", outputs, 1, sigm)
  }

  /** A decoder step: upsampled to the size of the skip connection and concatenated with it. */
  function Joined(deep: Tensor, skip: Tensor): (o: Tensor)
    requires deep.Valid() && skip.Valid()
    ensures o.Valid() && o.c == deep.c + skip.c && o.h == skip.h && o.w == skip.w
  {
    Cat(Up(deep, skip.h, skip.w), skip)
  }

  /** The joined channels are the upsampled ones of the deeper level, then those of the skip connection. */
  lemma JoinedChannels(deep: Tensor, skip: Tensor, c: nat, y: nat, x: nat)
    requires deep.Valid() && skip.Valid() && c < deep.c + skip.c && y < skip.h && x < skip.w
    ensures Padded(Joined(deep, skip), c, y, x) ==
      if c < deep.c then UpAt(deep, skip.h, skip.w, c, y, x) else Padded(skip, c - deep.c, y, x)
  {
    hide Padded, Up, UpAt, Cat;
    CatChannels(Up(deep, skip.h, skip.w), skip, c, y, x);
    if c < deep.c {
      UpElement(deep, skip.h, skip.w, c, y, x);
      ImageValue(Up(deep, skip.h, skip.w), c, y, x);
    }
  }

  /** An element of a gated layer: its feature, a tenth of it if negative, scaled by its gate. */
  lemma GatedElement(m: Model, t: Tensor, p: string, outputs: nat, stride: nat, sigm: real -> real, i: nat)
    requires t.Valid() && stride >= 1 && i < |GatedLayer(m, t, p, outputs, stride, sigm).d|
    ensures
      var f := Conv(t, Get(m, p + ".feat.weight"), Get(m, p + ".feat.bias"), outputs, stride);
      var g := Conv(t, Get(m, p + ".gate.weight"), Get(m, p + ".gate.bias"), outputs, stride);
      && |f.d| == |g.d| == |GatedLayer(m, t, p, outputs, stride, sigm).d|
      && GatedLayer(m, t, p, outputs, stride, sigm).d[i] ==
         (if f.d[i] >= 0.0 then f.d[i] else f.d[i] / 10.0) * sigm(g.d[i])
  {
    hide Conv, Get;
    Suffixes(p, ".feat");
    Suffixes(p, ".gate");
    assert ".feat" + ".weight" == ".feat.weight" && ".feat" + ".bias" == ".feat.bias";
    assert ".gate" + ".weight" == ".gate.weight" && ".gate" + ".bias" == ".gate.bias";
  }

  lemma Suffixes(p: string, q: string)
    ensures (p + q) + ".weight" == p + (q + ".weight") && (p + q) + ".bias" == p + (q + ".bias")
  {
  }

  /** The four encoder levels. */
  datatype Levels = Levels(s1: Tensor, s2: Tensor, s3: Tensor, s4: Tensor) {
    predicate Valid() { s1.Valid() && s2.Valid() && s3.Valid() && s4.Valid() }
  }

  function Encode(m: Model, t: Tensor, base: nat, sigm: real -> real): (l: Levels)
    requires t.Valid()
    ensures l.Valid() && l.s1.h == t.h && l.s1.w == t.w
    ensures l.s1.c == base && l.s2.c == 2 * base && l.s3.c == 3 * base && l.s4.c == 4 * base
    ensures l.s2.h == (l.s1.h + 1) / 2 && l.s3.h == (l.s2.h + 1) / 2 && l.s4.h == (l.s3.h + 1) / 2
    ensures l.s2.w == (l.s1.w + 1) / 2 && l.s3.w == (l.s2.w + 1) / 2 && l.s4.w == (l.s3.w + 1) / 2
  {
    Extents(t.h);
    Extents(t.w);
    var s1 := Pair(m, t, "fusion.e1", base, 1, sigm);
    Extents(s1.h);
    Extents(s1.w);
    var s2 := Pair(m, s1, "fusion.e2", 2 * base, 2, sigm);
    Extents(s2.h);
    Extents(s2.w);
    var s3 := Pair(m, s2, "fusion.e3", 3 * base, 2, sigm);
    Extents(s3.h);
    Extents(s3.w);
    Levels(s1, s2, s3, Pair(m, s3, "fusion.e4", 4 * base, 2, sigm))
  }

  function Decode(m: Model, l: Levels, base: nat, sigm: real -> real): (o: Tensor)
    requires l.Valid()
    ensures o.Valid() && o.c == base && o.h == l.s1.h && o.w == l.s1.w
  {
    var d3 := Pair(m, Joined(l.s4, l.s3), "fusion.d3", 3 * base, 1, sigm);
    var d2 := Pair(m, Joined(d3, l.s2), "fusion.d2", 2 * base, 1, sigm);
    Extents(l.s1.h);
    Extents(l.s1.w);
    Pair(m, Joined(d2, l.s1), "fusion.d1", base, 1, sigm)
  }

  /** The whole net: it ends at the size it started from, with three channels. */
  function Net(m: Model, t: Tensor, base: nat, sigm: real -> real): (o: Tensor)
    requires t.Valid()
    ensures o.Valid() && o.c == 3 && o.h == t.h && o.w == t.w
  {
    var d1 := Decode(m, Encode(m, t, base, sigm), base, sigm);
    Extents(d1.h);
    Extents(d1.w);
    Layer(m, d1, "fusion.out", 3, 1)
  }

  /** For every extent the result has exactly 3 h w entries, all zero when the output convolution is
      zero: an untrained net changes nothing. */
  lemma NetResult(m: Model, t: Tensor, base: nat, sigm: real -> real, i: nat)
    requires t.Valid()
    ensures |Net(m, t, base, sigm).d| == 3 * t.h * t.w
    ensures i < 3 * t.h * t.w && AllZero(Get(m, "fusion.out.weight").d) && AllZero(Get(m, "fusion.out.bias").d) ==>
      Net(m, t, base, sigm).d[i] == 0.0
  {
    hide Conv, AllZero, Encode, Decode;
    var d1 := Decode(m, Encode(m, t, base, sigm), base, sigm);
    assert "fusion.out" + ".weight" == "fusion.out.weight" && "fusion.out" + ".bias" == "fusion.out.bias";
    if i < 3 * t.h * t.w && AllZero(Get(m, "fusion.out.weight").d) && AllZero(Get(m, "fusion.out.bias").d) {
      ZeroConv(d1, Get(m, "fusion.out.weight"), Get(m, "fusion.out.bias"), 3, 1, i);
    }
  }

  // ----- Which tensors the net reads

  const LAYERS: seq<string> := [".0", ".1"]
  const PARTS: seq<string> := [".feat.weight", ".feat.bias", ".gate.weight", ".gate.bias"]

  /** The two models have the same four tensors in both gated layers of a block. */
  predicate SameBlock(a: Model, b: Model, e: string) {
    forall l <- LAYERS, p <- PARTS :: Get(a, e + l + p) == Get(b, e + l + p)
  }

  /** The same 58 tensors: seven blocks of two layers of four, and the output convolution's two. */
  predicate SameTensors(a: Model, b: Model) {
    && SameBlock(a, b, "fusion.e1") && SameBlock(a, b, "fusion.e2") && SameBlock(a, b, "fusion.e3")
    && SameBlock(a, b, "fusion.e4") && SameBlock(a, b, "fusion.d3") && SameBlock(a, b, "fusion.d2")
    && SameBlock(a, b, "fusion.d1")
    && Get(a, "fusion.out.weight") == Get(b, "fusion.out.weight")
    && Get(a, "fusion.out.bias") == Get(b, "fusion.out.bias")
  }

  lemma GatedReads(a: Model, b: Model, t: Tensor, p: string, outputs: nat, stride: nat, sigm: real -> real)
    requires t.Valid() && stride >= 1 && forall q <- PARTS :: Get(a, p + q) == Get(b, p + q)
    ensures GatedLayer(a, t, p, outputs, stride, sigm) == GatedLayer(b, t, p, outputs, stride, sigm)
  {
    hide Conv, Get;
    assert PARTS[0] in PARTS && PARTS[1] in PARTS && PARTS[2] in PARTS && PARTS[3] in PARTS;
    Suffixes(p, ".feat");
    Suffixes(p, ".gate");
    assert ".feat" + ".weight" == PARTS[0] && ".feat" + ".bias" == PARTS[1];
    assert ".gate" + ".weight" == PARTS[2] && ".gate" + ".bias" == PARTS[3];
  }

  lemma PairReads(a: Model, b: Model, t: Tensor, e: string, outputs: nat, stride: nat, sigm: real -> real)
    requires t.Valid() && stride >= 1 && SameBlock(a, b, e)
    ensures Pair(a, t, e, outputs, stride, sigm) == Pair(b, t, e, outputs, stride, sigm)
  {
    hide GatedLayer, Get, OutSize;
    assert LAYERS[0] in LAYERS && LAYERS[1] in LAYERS;
    GatedReads(a, b, t, e + ".0", outputs, stride, sigm);
    GatedReads(a, b, GatedLayer(a, t, e + ".0", outputs, stride, sigm), e + ".1", outputs, 1, sigm);
  }

  lemma EncodeReads(a: Model, b: Model, t: Tensor, base: nat, sigm: real -> real)
    requires t.Valid() && SameTensors(a, b)
    ensures Encode(a, t, base, sigm) == Encode(b, t, base, sigm)
  {
    hide Pair, SameBlock, Get, OutSize;
    var l := Encode(a, t, base, sigm);
    PairReads(a, b, t, "fusion.e1", base, 1, sigm);
    PairReads(a, b, l.s1, "fusion.e2", 2 * base, 2, sigm);
    PairReads(a, b, l.s2, "fusion.e3", 3 * base, 2, sigm);
    PairReads(a, b, l.s3, "fusion.e4", 4 * base, 2, sigm);
  }

  lemma DecodeReads(a: Model, b: Model, l: Levels, base: nat, sigm: real -> real)
    requires l.Valid() && SameTensors(a, b)
    ensures Decode(a, l, base, sigm) == Decode(b, l, base, sigm)
  {
    hide Pair, SameBlock, Get, OutSize, Joined;
    var d3 := Pair(a, Joined(l.s4, l.s3), "fusion.d3", 3 * base, 1, sigm);
    var d2 := Pair(a, Joined(d3, l.s2), "fusion.d2", 2 * base, 1, sigm);
    PairReads(a, b, Joined(l.s4, l.s3), "fusion.d3", 3 * base, 1, sigm);
    PairReads(a, b, Joined(d3, l.s2), "fusion.d2", 2 * base, 1, sigm);
    PairReads(a, b, Joined(d2, l.s1), "fusion.d1", base, 1, sigm);
  }

  /** The result depends on no other tensor of the model than those 58. */
  lemma NetReads(a: Model, b: Model, t: Tensor, base: nat, sigm: real -> real)
    requires t.Valid() && SameTensors(a, b)
    ensures Net(a, t, base, sigm) == Net(b, t, base, sigm)
  {
    hide Conv, Encode, Decode, SameBlock, Get, OutSize;
    EncodeReads(a, b, t, base, sigm);
    DecodeReads(a, b, Encode(a, t, base, sigm), base, sigm);
    assert "fusion.out" + ".weight" == "fusion.out.weight" && "fusion.out" + ".bias" == "fusion.out.bias";
  }

  // ----- runFusionCPU

  method RunLayer(m: Model, t: Tensor, p: string, ghost outputs: nat, stride: nat) returns (o: Tensor)
    requires t.Valid() && stride >= 1 && LayerOk(m, p, outputs, t.c)
    ensures o == Layer(m, t, p, outputs, stride)
  {
    hide Conv;
    o := Conv3(t, Get(m, p + ".weight"), Get(m, p + ".bias"), stride);
  }

  method RunGated(m: Model, t: Tensor, p: string, ghost outputs: nat, stride: nat, sigm: real -> real)
    returns (o: Tensor)
    requires t.Valid() && stride >= 1 && GatedOk(m, p, outputs, t.c)
    ensures o == GatedLayer(m, t, p, outputs, stride, sigm)
  {
    hide LayerOk, Layer;
    var a := RunLayer(m, t, p + ".feat", outputs, stride);
    var g := RunLayer(m, t, p + ".gate", outputs, stride);
    o := Gated(a, g, sigm);
  }

  method RunPair(m: Model, t: Tensor, e: string, ghost outputs: nat, stride: nat, sigm: real -> real)
    returns (o: Tensor)
    requires t.Valid() && stride >= 1 && Seq2Ok(m, e, outputs, t.c)
    ensures o == Pair(m, t, e, outputs, stride, sigm)
  {
    hide GatedOk, GatedLayer;
    var a := RunGated(m, t, e + ".0", outputs, stride, sigm);
    o := RunGated(m, a, e + ".1", outputs, 1, sigm);
  }

  method RunJoined(deep: Tensor, skip: Tensor) returns (o: Tensor)
    requires deep.Valid() && skip.Valid()
    ensures o == Joined(deep, skip)
  {
    var u := Upsample(deep, skip.h, skip.w);
    o := Cat(u, skip);
  }

  method RunFusionCPU(m: Model, x: seq<real>, h: nat, w: nat, ghost base: nat, sigm: real -> real)
    returns (r: seq<real>)
    requires m.valid && |x| == 12 * h * w ==> h >= 1 && w >= 1 && FusionShaped(m, base)
    ensures r == if m.valid && |x| == 12 * h * w then Net(m, Tensor(x, 12, h, w), base, sigm).d else []
  {
    hide Pair, Seq2Ok, LayerOk, Layer, Joined, OutSize;
    if !m.valid || |x| != 12 * h * w { return []; }
    var t := Tensor(x, 12, h, w);
    var s1 := RunPair(m, t, "fusion.e1", base, 1, sigm);
    Extents(t.h);
    Extents(t.w);
    var s2 := RunPair(m, s1, "fusion.e2", 2 * base, 2, sigm);
    var s3 := RunPair(m, s2, "fusion.e3", 3 * base, 2, sigm);
    var s4 := RunPair(m, s3, "fusion.e4", 4 * base, 2, sigm);
    ghost var l := Encode(m, t, base, sigm);
    assert l == Levels(s1, s2, s3, s4);
    var j3 := RunJoined(s4, s3);
    var d3 := RunPair(m, j3, "fusion.d3", 3 * base, 1, sigm);
    var j2 := RunJoined(d3, s2);
    var d2 := RunPair(m, j2, "fusion.d2", 2 * base, 1, sigm);
    var j1 := RunJoined(d2, s1);
    var d1 := RunPair(m, j1, "fusion.d1", base, 1, sigm);
    var out := RunLayer(m, d1, "fusion.out", 3, 1);
    return out.d;
  }
}
