/** Forward splatting: every source pixel adds its value, bilinearly weighted, to the four grid points
    around where the flow carries it. Arithmetic is over the reals. */
module Splat {
  import opened Grid

  /** A flow field on a grid of h by w pixels, row by row. */
  datatype Flow = Flow(h: nat, w: nat, dx: seq<real>, dy: seq<real>) {
    predicate Valid() {
      h >= 1 && w >= 1 && |dx| == h * w && |dy| == h * w
    }
  }

  function Pixels(f: Flow): nat { f.h * f.w }

  function X(f: Flow, n: nat): nat
    requires f.w >= 1
  {
    n % f.w
  }

  function Y(f: Flow, n: nat): nat
    requires f.w >= 1
  {
    n / f.w
  }

  function Px(f: Flow, n: nat): real
    requires f.Valid() && n < Pixels(f)
  {
    X(f, n) as real + f.dx[n]
  }

  function Py(f: Flow, n: nat): real
    requires f.Valid() && n < Pixels(f)
  {
    Y(f, n) as real + f.dy[n]
  }

  /** The fraction of a coordinate. */
  function Frac(p: real): (r: real)
    ensures 0.0 <= r < 1.0
  {
    p - p.Floor as real
  }

  /** A corner: which of the two columns and rows around the target. */
  datatype Corner = Corner(right: bool, below: bool)

  /** The order of the corner loops. */
  const CORNERS: seq<Corner> := [Corner(false, false), Corner(false, true), Corner(true, false), Corner(true, true)]

  function Column(f: Flow, c: Corner, n: nat): int
    requires f.Valid() && n < Pixels(f)
  {
    Px(f, n).Floor + if c.right then 1 else 0
  }

  function RowOf(f: Flow, c: Corner, n: nat): int
    requires f.Valid() && n < Pixels(f)
  {
    Py(f, n).Floor + if c.below then 1 else 0
  }

  function Weight(f: Flow, c: Corner, n: nat): (r: real)
    requires f.Valid() && n < Pixels(f)
    ensures r >= 0.0
  {
    var wx := if c.right then Frac(Px(f, n)) else 1.0 - Frac(Px(f, n));
    var wy := if c.below then Frac(Py(f, n)) else 1.0 - Frac(Py(f, n));
    NonNegative(wx, wy);
    wx * wy
  }

  lemma NonNegative(a: real, b: real)
    requires a >= 0.0 && b >= 0.0
    ensures a * b >= 0.0
  {
  }

  predicate InGrid(f: Flow, c: Corner, n: nat)
    requires f.Valid() && n < Pixels(f)
  {
    0 <= Column(f, c, n) < f.w && 0 <= RowOf(f, c, n) < f.h
  }

  /** Where a corner adds to, clamped into the grid. */
  function Target(f: Flow, c: Corner, n: nat): (k: nat)
    requires f.Valid() && n < Pixels(f)
    ensures k < Pixels(f)
  {
    var r, q := Clamp(RowOf(f, c, n), f.h), Clamp(Column(f, c, n), f.w);
    RowMajor(r, q, f.h, f.w);
    r * f.w + q
  }

  /** The weight that counts: none off the grid. */
  function Share(f: Flow, c: Corner, n: nat): (r: real)
    requires f.Valid() && n < Pixels(f)
    ensures r >= 0.0
  {
    if InGrid(f, c, n) then Weight(f, c, n) else 0.0
  }

  /** What point k has received from the first n pixels through corner c. */
  function FromCorner(f: Flow, v: seq<real>, c: Corner, n: nat, k: nat): real
    requires f.Valid() && |v| == Pixels(f) && n <= Pixels(f)
  {
    if n == 0 then 0.0
    else FromCorner(f, v, c, n - 1, k) + if Target(f, c, n - 1) == k then v[n - 1] * Share(f, c, n - 1) else 0.0
  }

  /** The gather form of the result: what point k receives through the first m corners. */
  function Received(f: Flow, v: seq<real>, m: nat, k: nat): real
    requires f.Valid() && |v| == Pixels(f) && m <= 4
  {
    if m == 0 then 0.0 else Received(f, v, m - 1, k) + FromCorner(f, v, CORNERS[m - 1], Pixels(f), k)
  }

  /** forward_splat on one channel: scatter-add, corner after corner. */
  method SplatChannel(f: Flow, v: seq<real>) returns (out: array<real>)
    requires f.Valid() && |v| == Pixels(f)
    ensures fresh(out) && out.Length == Pixels(f)
    ensures forall k :: 0 <= k < out.Length ==> out[k] == Received(f, v, 4, k)
  {
    out := new real[f.h * f.w](i => 0.0);
    var m := 0;
    while m < 4
      invariant 0 <= m <= 4
      invariant forall k :: 0 <= k < out.Length ==> out[k] == Received(f, v, m, k)
    {
      ScatterAdd(f, v, CORNERS[m], out);
      m := m + 1;
    }
  }

  /** scatter_add_ of one corner's contributions. */
  method ScatterAdd(f: Flow, v: seq<real>, c: Corner, out: array<real>)
    requires f.Valid() && |v| == Pixels(f) == out.Length
    modifies out
    ensures forall k :: 0 <= k < out.Length ==> out[k] == old(out[k]) + FromCorner(f, v, c, Pixels(f), k)
  {
    hide Share, Target;
    var n := 0;
    while n < out.Length
      invariant 0 <= n <= out.Length
      invariant forall k :: 0 <= k < out.Length ==> out[k] == old(out[k]) + FromCorner(f, v, c, n, k)
    {
      var t := Target(f, c, n);
      out[t] := out[t] + v[n] * Share(f, c, n);
      n := n + 1;
    }
  }

  // ----- Conservation

  /** The sum over the first m points of what they receive. */
  function TotalReceived(f: Flow, v: seq<real>, c: nat, m: nat): real
    requires f.Valid() && |v| == Pixels(f) && c <= 4
  {
    if m == 0 then 0.0 else TotalReceived(f, v, c, m - 1) + Received(f, v, c, m - 1)
  }

  function CornerReceived(f: Flow, v: seq<real>, c: Corner, n: nat, m: nat): real
    requires f.Valid() && |v| == Pixels(f) && n <= Pixels(f)
  {
    if m == 0 then 0.0 else CornerReceived(f, v, c, n, m - 1) + FromCorner(f, v, c, n, m - 1)
  }

  /** What the first n pixels give away through a corner. */
  function Given(f: Flow, v: seq<real>, c: Corner, n: nat): real
    requires f.Valid() && |v| == Pixels(f) && n <= Pixels(f)
  {
    if n == 0 then 0.0 else Given(f, v, c, n - 1) + v[n - 1] * Share(f, c, n - 1)
  }

  lemma {:induction false} OneMoreSource(f: Flow, v: seq<real>, c: Corner, n: nat, m: nat)
    requires f.Valid() && |v| == Pixels(f) && n < Pixels(f)
    ensures CornerReceived(f, v, c, n + 1, m) ==
      CornerReceived(f, v, c, n, m) + if Target(f, c, n) < m then v[n] * Share(f, c, n) else 0.0
  {
    if m > 0 {
      OneMoreSource(f, v, c, n, m - 1);
    }
  }

  lemma {:induction false} NothingReceived(f: Flow, v: seq<real>, c: Corner, m: nat)
    requires f.Valid() && |v| == Pixels(f)
    ensures CornerReceived(f, v, c, 0, m) == 0.0
  {
    if m > 0 {
      NothingReceived(f, v, c, m - 1);
    }
  }

  /** Through each corner exactly as much arrives as is given. */
  lemma {:induction false} CornerConserves(f: Flow, v: seq<real>, c: Corner, n: nat)
    requires f.Valid() && |v| == Pixels(f) && n <= Pixels(f)
    ensures CornerReceived(f, v, c, n, Pixels(f)) == Given(f, v, c, n)
  {
    if n == 0 {
      NothingReceived(f, v, c, Pixels(f));
    } else {
      CornerConserves(f, v, c, n - 1);
      OneMoreSource(f, v, c, n - 1, Pixels(f));
    }
  }

  lemma {:induction false} TotalByCorner(f: Flow, v: seq<real>, c: nat, m: nat)
    requires f.Valid() && |v| == Pixels(f) && c < 4
    ensures TotalReceived(f, v, c + 1, m) == TotalReceived(f, v, c, m) + CornerReceived(f, v, CORNERS[c], Pixels(f), m)
  {
    if m > 0 {
      TotalByCorner(f, v, c, m - 1);
    }
  }

  lemma {:induction false} NoCorners(f: Flow, v: seq<real>, m: nat)
    requires f.Valid() && |v| == Pixels(f)
    ensures TotalReceived(f, v, 0, m) == 0.0
  {
    if m > 0 {
      NoCorners(f, v, m - 1);
    }
  }

  /** The bilinear weight of a pixel that stays on the grid. */
  function KeptWeight(f: Flow, n: nat): real
    requires f.Valid() && n < Pixels(f)
  {
    Share(f, CORNERS[0], n) + Share(f, CORNERS[1], n) + Share(f, CORNERS[2], n) + Share(f, CORNERS[3], n)
  }

  function KeptMass(f: Flow, v: seq<real>, n: nat): real
    requires f.Valid() && |v| == Pixels(f) && n <= Pixels(f)
  {
    if n == 0 then 0.0 else KeptMass(f, v, n - 1) + v[n - 1] * KeptWeight(f, n - 1)
  }

  lemma {:induction false} GivenInAll(f: Flow, v: seq<real>, n: nat)
    requires f.Valid() && |v| == Pixels(f) && n <= Pixels(f)
    ensures Given(f, v, CORNERS[0], n) + Given(f, v, CORNERS[1], n) +
      Given(f, v, CORNERS[2], n) + Given(f, v, CORNERS[3], n)
      == KeptMass(f, v, n)
  {
    hide Share;
    if n > 0 {
      GivenInAll(f, v, n - 1);
      Distribute(v[n - 1], Share(f, CORNERS[0], n - 1), Share(f, CORNERS[1], n - 1),
                 Share(f, CORNERS[2], n - 1), Share(f, CORNERS[3], n - 1));
    }
  }

  lemma Distribute(x: real, a: real, b: real, c: real, d: real)
    ensures x * (a + b + c + d) == x * a + x * b + x * c + x * d
  {
  }

  /** Conservation of mass: the sum of a splatted channel is the sum over the sources of their value
      times the part of their bilinear weight that falls on the grid. */
  lemma SplatConserves(f: Flow, v: seq<real>)
    requires f.Valid() && |v| == Pixels(f)
    ensures TotalReceived(f, v, 4, Pixels(f)) == KeptMass(f, v, Pixels(f))
  {
    hide TotalReceived, CornerReceived, KeptMass, Given;
    var n := Pixels(f);
    NoCorners(f, v, n);
    TotalByCorner(f, v, 0, n);
    TotalByCorner(f, v, 1, n);
    TotalByCorner(f, v, 2, n);
    TotalByCorner(f, v, 3, n);
    CornerConserves(f, v, CORNERS[0], n);
    CornerConserves(f, v, CORNERS[1], n);
    CornerConserves(f, v, CORNERS[2], n);
    CornerConserves(f, v, CORNERS[3], n);
    GivenInAll(f, v, n);
  }

  function Sum(v: seq<real>, n: nat): real
    requires n <= |v|
  {
    if n == 0 then 0.0 else Sum(v, n - 1) + v[n - 1]
  }

  /** No corner with weight leaves the grid. */
  predicate StaysInside(f: Flow, n: nat)
    requires f.Valid() && n < Pixels(f)
  {
    forall c <- CORNERS :: Weight(f, c, n) != 0.0 ==> InGrid(f, c, n)
  }

  lemma WeightsSumToOne(f: Flow, n: nat)
    requires f.Valid() && n < Pixels(f)
    ensures Weight(f, CORNERS[0], n) + Weight(f, CORNERS[1], n) +
      Weight(f, CORNERS[2], n) + Weight(f, CORNERS[3], n) == 1.0
  {
    Bilinear(Frac(Px(f, n)), Frac(Py(f, n)));
  }

  lemma Bilinear(a: real, b: real)
    ensures (1.0 - a) * (1.0 - b) + (1.0 - a) * b + a * (1.0 - b) + a * b == 1.0
  {
  }

  lemma KeepsAll(f: Flow, n: nat)
    requires f.Valid() && n < Pixels(f) && StaysInside(f, n)
    ensures KeptWeight(f, n) == 1.0
  {
    WeightsSumToOne(f, n);
    assert CORNERS[0] in CORNERS && CORNERS[1] in CORNERS && CORNERS[2] in CORNERS && CORNERS[3] in CORNERS;
  }

  lemma {:induction false} MassKept(f: Flow, v: seq<real>, n: nat)
    requires f.Valid() && |v| == Pixels(f) && n <= Pixels(f)
    requires forall i :: 0 <= i < n ==> StaysInside(f, i)
    ensures KeptMass(f, v, n) == Sum(v, n)
  {
    if n > 0 {
      MassKept(f, v, n - 1);
      KeepsAll(f, n - 1);
    }
  }

  /** When nothing leaves the grid the sum of the output is the sum of the input. */
  lemma SplatPreservesSum(f: Flow, v: seq<real>)
    requires f.Valid() && |v| == Pixels(f) && forall i :: 0 <= i < Pixels(f) ==> StaysInside(f, i)
    ensures TotalReceived(f, v, 4, Pixels(f)) == Sum(v, |v|)
  {
    SplatConserves(f, v);
    MassKept(f, v, Pixels(f));
  }

  /** One at pixel i, zero elsewhere. */
  function Spot(f: Flow, i: nat): (v: seq<real>)
    ensures |v| == Pixels(f) && forall j :: 0 <= j < |v| ==> v[j] == if j == i then 1.0 else 0.0
  {
    seq(Pixels(f), j => if j == i then 1.0 else 0.0)
  }

  lemma {:induction false} SpotMass(f: Flow, i: nat, n: nat)
    requires f.Valid() && i < Pixels(f) && n <= Pixels(f)
    ensures KeptMass(f, Spot(f, i), n) == if i < n then KeptWeight(f, i) else 0.0
    ensures Sum(Spot(f, i), n) == if i < n then 1.0 else 0.0
  {
    hide KeptWeight;
    if n > 0 {
      SpotMass(f, i, n - 1);
    }
  }

  lemma FullWeightStays(f: Flow, n: nat)
    requires f.Valid() && n < Pixels(f) && KeptWeight(f, n) == 1.0
    ensures StaysInside(f, n)
  {
    WeightsSumToOne(f, n);
    ShareBelow(f, CORNERS[0], n);
    ShareBelow(f, CORNERS[1], n);
    ShareBelow(f, CORNERS[2], n);
    ShareBelow(f, CORNERS[3], n);
  }

  lemma ShareBelow(f: Flow, c: Corner, n: nat)
    requires f.Valid() && n < Pixels(f)
    ensures Share(f, c, n) <= Weight(f, c, n)
    ensures Share(f, c, n) == Weight(f, c, n) <==> (Weight(f, c, n) != 0.0 ==> InGrid(f, c, n))
  {
  }

  ghost predicate Preserved(f: Flow, v: seq<real>)
    requires f.Valid()
  {
    |v| == Pixels(f) ==> TotalReceived(f, v, 4, Pixels(f)) == Sum(v, Pixels(f))
  }

  /** A flow preserves the sum of every channel if and only if no corner with weight leaves the grid. */
  lemma SumPreservedIff(f: Flow)
    requires f.Valid()
    ensures (forall v: seq<real> :: Preserved(f, v)) <==> forall i :: 0 <= i < Pixels(f) ==> StaysInside(f, i)
  {
    hide StaysInside, TotalReceived;
    if forall i :: 0 <= i < Pixels(f) ==> StaysInside(f, i) {
      forall v: seq<real> ensures Preserved(f, v) {
        if |v| == Pixels(f) {
          SplatPreservesSum(f, v);
        }
      }
    }
    if forall v: seq<real> :: Preserved(f, v) {
      forall i | 0 <= i < Pixels(f) ensures StaysInside(f, i) {
        var v := Spot(f, i);
        assert Preserved(f, v);
        SplatConserves(f, v);
        SpotMass(f, i, Pixels(f));
        FullWeightStays(f, i);
      }
    }
  }

  // ----- Zero flow

  predicate NoFlow(f: Flow) {
    f.Valid() && forall n :: 0 <= n < Pixels(f) ==> f.dx[n] == 0.0 && f.dy[n] == 0.0
  }

  lemma PositionOfPixel(f: Flow, n: nat)
    requires f.Valid() && n < Pixels(f)
    ensures X(f, n) < f.w && Y(f, n) < f.h && Y(f, n) * f.w + X(f, n) == n
  {
    RowBelow(n, f.h, f.w);
  }

  lemma RowBelow(n: nat, h: nat, w: nat)
    requires w >= 1 && n < h * w
    ensures n / w < h && n / w * w + n % w == n
  {
    if n / w >= h {
      Times(h, n / w, w);
    }
  }

  lemma StillPixel(f: Flow, n: nat, c: Corner)
    requires NoFlow(f) && n < Pixels(f)
    ensures !c.right && !c.below ==> Target(f, c, n) == n && Share(f, c, n) == 1.0
    ensures c.right || c.below ==> Share(f, c, n) == 0.0
  {
    PositionOfPixel(f, n);
    assert Px(f, n) == X(f, n) as real && Py(f, n) == Y(f, n) as real;
    assert Frac(Px(f, n)) == 0.0 && Frac(Py(f, n)) == 0.0;
  }

  lemma {:induction false} StillCorner(f: Flow, v: seq<real>, c: Corner, n: nat, k: nat)
    requires NoFlow(f) && |v| == Pixels(f) && n <= Pixels(f) && k < Pixels(f)
    ensures FromCorner(f, v, c, n, k) == if !c.right && !c.below && k < n then v[k] else 0.0
  {
    hide Target, Share;
    if n > 0 {
      StillCorner(f, v, c, n - 1, k);
      StillPixel(f, n - 1, c);
    }
  }

  /** Splatting along a zero flow is the identity. */
  lemma ZeroFlowIsIdentity(f: Flow, v: seq<real>, k: nat)
    requires NoFlow(f) && |v| == Pixels(f) && k < Pixels(f)
    ensures Received(f, v, 4, k) == v[k]
  {
    hide FromCorner;
    StillCorner(f, v, CORNERS[0], Pixels(f), k);
    StillCorner(f, v, CORNERS[1], Pixels(f), k);
    StillCorner(f, v, CORNERS[2], Pixels(f), k);
    StillCorner(f, v, CORNERS[3], Pixels(f), k);
    assert Received(f, v, 4, k) == Received(f, v, 3, k) + 0.0;
    assert Received(f, v, 3, k) == Received(f, v, 2, k) + 0.0;
    assert Received(f, v, 2, k) == Received(f, v, 1, k) + 0.0;
    assert Received(f, v, 1, k) == Received(f, v, 0, k) + v[k];
  }

  // ----- Softmax splatting

  const EPS: real := 0.000001

  /** Pointwise product of a channel with the weights. */
  function Weighted(v: seq<real>, w: seq<real>): (r: seq<real>)
    requires |v| == |w|
    ensures |r| == |v| && forall n :: 0 <= n < |v| ==> r[n] == v[n] * w[n]
  {
    seq(|v|, n requires 0 <= n < |v| => v[n] * w[n])
  }

  /** u is a channel of non-negative values, nowhere above hi times w. */
  predicate Dominated(u: seq<real>, w: seq<real>, hi: real) {
    |u| == |w| && forall n :: 0 <= n < |u| ==> 0.0 <= u[n] <= hi * w[n]
  }

  lemma ScaledShare(u: real, w: real, hi: real, s: real)
    requires 0.0 <= u <= hi * w && s >= 0.0
    ensures 0.0 <= u * s <= hi * (w * s)
  {
    assert u * s <= (hi * w) * s;
    assert (hi * w) * s == hi * (w * s);
  }

  lemma {:induction false} DominatedCorner(f: Flow, u: seq<real>, w: seq<real>, hi: real, c: Corner, n: nat, k: nat)
    requires f.Valid() && |u| == Pixels(f) && Dominated(u, w, hi) && n <= Pixels(f)
    ensures 0.0 <= FromCorner(f, u, c, n, k) <= hi * FromCorner(f, w, c, n, k)
  {
    hide Target, Share;
    if n > 0 {
      DominatedCorner(f, u, w, hi, c, n - 1, k);
      ScaledShare(u[n - 1], w[n - 1], hi, Share(f, c, n - 1));
      ScaleSum(hi, FromCorner(f, w, c, n - 1, k), w[n - 1] * Share(f, c, n - 1));
    }
  }

  lemma ScaleSum(hi: real, a: real, b: real)
    ensures hi * (a + b) == hi * a + hi * b
  {
  }

  lemma {:induction false} DominatedReceived(f: Flow, u: seq<real>, w: seq<real>, hi: real, m: nat, k: nat)
    requires f.Valid() && |u| == Pixels(f) && Dominated(u, w, hi) && m <= 4
    ensures 0.0 <= Received(f, u, m, k) <= hi * Received(f, w, m, k)
  {
    hide FromCorner;
    if m > 0 {
      DominatedReceived(f, u, w, hi, m - 1, k);
      DominatedCorner(f, u, w, hi, CORNERS[m - 1], Pixels(f), k);
      ScaleSum(hi, Received(f, w, m - 1, k), FromCorner(f, w, CORNERS[m - 1], Pixels(f), k));
    }
  }

  /** The pixel k of softmax_splat for one image channel; w is exp of the clamped metric. */
  function SoftmaxAt(f: Flow, v: seq<real>, w: seq<real>, k: nat): real
    requires f.Valid() && |v| == |w| == Pixels(f)
    requires Received(f, w, 4, k) + EPS != 0.0
  {
    Received(f, Weighted(v, w), 4, k) / (Received(f, w, 4, k) + EPS)
  }

  lemma QuotientInRange(num: real, den: real, hi: real)
    requires 0.0 <= num <= hi * den && den >= 0.0 && hi >= 0.0
    ensures den + EPS > 0.0 && 0.0 <= num / (den + EPS) <= hi
  {
    var q := num / (den + EPS);
    assert q * (den + EPS) == num;
    assert hi * (den + EPS) == hi * den + hi * EPS;
    if q > hi {
      LargerProduct(q, hi, den + EPS);
    } else if q < 0.0 {
      LargerProduct(0.0, q, den + EPS);
    }
  }

  lemma LargerProduct(a: real, b: real, d: real)
    requires a > b && d > 0.0
    ensures a * d > b * d
  {
  }

  /** Whatever the positive weights, softmax splatting keeps image values within [0, hi]. */
  lemma SoftmaxStaysInRange(f: Flow, v: seq<real>, w: seq<real>, hi: real, k: nat)
    requires f.Valid() && |v| == |w| == Pixels(f) && hi >= 0.0
    requires forall n :: 0 <= n < |v| ==> 0.0 <= v[n] <= hi && w[n] > 0.0
    ensures Received(f, w, 4, k) >= 0.0 && 0.0 <= SoftmaxAt(f, v, w, k) <= hi
  {
    var u := Weighted(v, w);
    forall n | 0 <= n < |u| ensures 0.0 <= u[n] <= hi * w[n] {
      ScaleBelow(v[n], hi, w[n]);
    }
    forall n | 0 <= n < |w| ensures 0.0 <= w[n] <= 1.0 * w[n] {
    }
    DominatedReceived(f, u, w, hi, 4, k);
    DominatedReceived(f, w, w, 1.0, 4, k);
    QuotientInRange(Received(f, u, 4, k), Received(f, w, 4, k), hi);
  }

  lemma ScaleBelow(v: real, hi: real, w: real)
    requires 0.0 <= v <= hi && w > 0.0
    ensures 0.0 <= v * w <= hi * w
  {
  }

  /** The value x is the quotient of the two splats at point k, whose denominator is positive. */
  predicate IsSoftmax(f: Flow, v: seq<real>, w: seq<real>, k: nat, x: real)
    requires f.Valid() && |v| == |w| == Pixels(f)
  {
    Received(f, w, 4, k) + EPS > 0.0 && x == SoftmaxAt(f, v, w, k)
  }

  lemma IsSoftmaxNow(f: Flow, v: seq<real>, w: seq<real>, k: nat)
    requires f.Valid() && |v| == |w| == Pixels(f) && Received(f, w, 4, k) + EPS > 0.0
    ensures IsSoftmax(f, v, w, k, Received(f, Weighted(v, w), 4, k) / (Received(f, w, 4, k) + EPS))
  {
    hide Received;
  }

  /** softmax_splat for one image channel. */
  method SoftmaxSplat(f: Flow, v: seq<real>, w: seq<real>) returns (out: array<real>)
    requires f.Valid() && |v| == |w| == Pixels(f) && forall n :: 0 <= n < |w| ==> w[n] > 0.0
    ensures out.Length == Pixels(f)
    ensures forall k :: 0 <= k < out.Length ==> IsSoftmax(f, v, w, k, out[k])
  {
    hide IsSoftmax, Received;
    var num := SplatChannel(f, Weighted(v, w));
    var den := SplatChannel(f, w);
    out := new real[num.Length](i => 0.0);
    var k := 0;
    while k < out.Length
      modifies out
      invariant 0 <= k <= out.Length
      invariant forall j :: 0 <= j < k ==> IsSoftmax(f, v, w, j, out[j])
    {
      DenominatorPositive(f, w, k);
      out[k] := num[k] / (den[k] + EPS);
      IsSoftmaxNow(f, v, w, k);
      k := k + 1;
    }
  }

  lemma DenominatorPositive(f: Flow, w: seq<real>, k: nat)
    requires f.Valid() && |w| == Pixels(f) && forall n :: 0 <= n < |w| ==> w[n] > 0.0
    ensures Received(f, w, 4, k) + EPS > 0.0
  {
    DominatedReceived(f, w, w, 1.0, 4, k);
  }
}
