/** Where forward splatting puts the mass, read off the flow field itself: a reference definition of the
    result, its moments, and where an integer flow leads. */
module SplatLaws {
  import opened Bytes
  import opened Grid
  import opened Splat

  // ----- The result as a gather with tent weights

  /** One at zero, falling linearly to zero at distance one. */
  function Tent(d: real): real {
    if d <= -1.0 || d >= 1.0 then 0.0 else if d < 0.0 then 1.0 + d else 1.0 - d
  }

  /** The part of source n's value that lands on point k: source n is carried from its column and row by
      the flow. */
  function Pull(f: Flow, n: nat, k: nat): real
    requires f.Valid() && n < f.h * f.w
  {
    Tent((n % f.w) as real + f.dx[n] - (k % f.w) as real) * Tent((n / f.w) as real + f.dy[n] - (k / f.w) as real)
  }

  /** What point k gets from the first n sources. */
  function Gathered(f: Flow, v: seq<real>, n: nat, k: nat): real
    requires f.Valid() && |v| == f.h * f.w && n <= |v|
  {
    if n == 0 then 0.0 else Gathered(f, v, n - 1, k) + v[n - 1] * Pull(f, n - 1, k)
  }

  /** The weight of one of the two grid lines around p, if that line is k. */
  function LineWeight(p: real, next: bool, k: int): real {
    if p.Floor + (if next then 1 else 0) != k then 0.0 else if next then Frac(p) else 1.0 - Frac(p)
  }

  lemma LinesAreTent(p: real, k: int)
    ensures LineWeight(p, false, k) + LineWeight(p, true, k) == Tent(p - k as real)
  {
  }

  /** Point k by row and column. */
  lemma PointSplits(k: nat, h: nat, w: nat)
    requires w >= 1 && k < h * w
    ensures k % w < w && k / w < h && k / w * w + k % w == k
  {
    RowBelow(k, h, w);
  }

  lemma PointOf(q: nat, r: nat, w: nat)
    requires r < w
    ensures (q * w + r) / w == q && (q * w + r) % w == r
  {
    UniqueRemainder(q * w + r, w, q, r);
  }

  /** In the grid, a corner's target is the point in its row and column. */
  lemma TargetIs(f: Flow, c: Corner, n: nat)
    requires f.Valid() && n < Pixels(f) && InGrid(f, c, n)
    ensures Target(f, c, n) / f.w == RowOf(f, c, n) && Target(f, c, n) % f.w == Column(f, c, n)
  {
    PointOf(RowOf(f, c, n), Column(f, c, n), f.w);
  }

  /** What a corner of source n adds to point k, for a value of one. */
  function Hit(f: Flow, c: Corner, n: nat, k: nat): real
    requires f.Valid() && n < Pixels(f)
  {
    if Target(f, c, n) == k then Share(f, c, n) else 0.0
  }

  lemma HitIff(f: Flow, c: Corner, n: nat, k: nat)
    requires f.Valid() && n < Pixels(f) && k < Pixels(f)
    ensures InGrid(f, c, n) && Target(f, c, n) == k <==> Column(f, c, n) == k % f.w && RowOf(f, c, n) == k / f.w
  {
    hide Target, Column, RowOf;
    PointSplits(k, f.h, f.w);
    if InGrid(f, c, n) {
      TargetIs(f, c, n);
      PointSplits(Target(f, c, n), f.h, f.w);
    }
  }

  lemma WeightIs(f: Flow, c: Corner, n: nat, x: int, y: int)
    requires f.Valid() && n < Pixels(f)
    ensures LineWeight(Px(f, n), c.right, x) * LineWeight(Py(f, n), c.below, y) ==
      if Column(f, c, n) == x && RowOf(f, c, n) == y then Weight(f, c, n) else 0.0
  {
    hide Px, Py, Frac;
  }

  lemma HitIs(f: Flow, c: Corner, n: nat, k: nat)
    requires f.Valid() && n < Pixels(f) && k < Pixels(f)
    ensures Hit(f, c, n, k) ==
      LineWeight(Px(f, n), c.right, k % f.w) * LineWeight(Py(f, n), c.below, k / f.w)
  {
    hide Target, InGrid, Column, RowOf, Weight, LineWeight, Px, Py;
    HitIff(f, c, n, k);
    WeightIs(f, c, n, k % f.w, k / f.w);
  }

  lemma ProductOfSums(a: real, b: real, c: real, d: real)
    ensures a * c + a * d + b * c + b * d == (a + b) * (c + d)
  {
  }

  lemma HitsArePull(f: Flow, n: nat, k: nat)
    requires f.Valid() && n < Pixels(f) && k < Pixels(f)
    ensures Hit(f, CORNERS[0], n, k) + Hit(f, CORNERS[1], n, k) + Hit(f, CORNERS[2], n, k) + Hit(f, CORNERS[3], n, k)
      == Pull(f, n, k)
  {
    hide Hit, LineWeight, Tent;
    var px, py, x, y := Px(f, n), Py(f, n), k % f.w, k / f.w;
    HitIs(f, CORNERS[0], n, k);
    HitIs(f, CORNERS[1], n, k);
    HitIs(f, CORNERS[2], n, k);
    HitIs(f, CORNERS[3], n, k);
    ProductOfSums(LineWeight(px, false, x), LineWeight(px, true, x), LineWeight(py, false, y), LineWeight(py, true, y));
    LinesAreTent(px, x);
    LinesAreTent(py, y);
  }

  /** Four sums that each grow by x times something. */
  lemma FourSteps(a: real, b: real, c: real, d: real, x: real, p: real, q: real, r: real, s: real)
    ensures (a + x * p) + (b + x * q) + (c + x * r) + (d + x * s) == (a + b + c + d) + x * (p + q + r + s)
  {
    Distribute(x, p, q, r, s);
  }

  /** What point k has received from the first n pixels through all corners. */
  function FromCorners(f: Flow, v: seq<real>, n: nat, k: nat): real
    requires f.Valid() && |v| == Pixels(f) && n <= Pixels(f)
  {
    FromCorner(f, v, CORNERS[0], n, k) + FromCorner(f, v, CORNERS[1], n, k) +
    FromCorner(f, v, CORNERS[2], n, k) + FromCorner(f, v, CORNERS[3], n, k)
  }

  lemma FromCornersStep(f: Flow, v: seq<real>, n: nat, k: nat)
    requires f.Valid() && |v| == Pixels(f) && 0 < n <= Pixels(f) && k < Pixels(f)
    ensures FromCorners(f, v, n, k) == FromCorners(f, v, n - 1, k) + v[n - 1] * Pull(f, n - 1, k)
  {
    hide Pull, Hit, FromCorner;
    HitsArePull(f, n - 1, k);
    OneMore(f, v, CORNERS[0], n, k);
    OneMore(f, v, CORNERS[1], n, k);
    OneMore(f, v, CORNERS[2], n, k);
    OneMore(f, v, CORNERS[3], n, k);
    FourSteps(FromCorner(f, v, CORNERS[0], n - 1, k), FromCorner(f, v, CORNERS[1], n - 1, k),
              FromCorner(f, v, CORNERS[2], n - 1, k), FromCorner(f, v, CORNERS[3], n - 1, k), v[n - 1],
              Hit(f, CORNERS[0], n - 1, k), Hit(f, CORNERS[1], n - 1, k), Hit(f, CORNERS[2], n - 1, k),
              Hit(f, CORNERS[3], n - 1, k));
  }

  lemma {:induction false} CornersGather(f: Flow, v: seq<real>, n: nat, k: nat)
    requires f.Valid() && |v| == Pixels(f) && n <= Pixels(f) && k < Pixels(f)
    ensures FromCorners(f, v, n, k) == Gathered(f, v, n, k)
  {
    hide Pull, FromCorners;
    if n == 0 {
      FromNone(f, v, k);
    } else {
      CornersGather(f, v, n - 1, k);
      FromCornersStep(f, v, n, k);
    }
  }

  lemma FromNone(f: Flow, v: seq<real>, k: nat)
    requires f.Valid() && |v| == Pixels(f)
    ensures FromCorners(f, v, 0, k) == 0.0
  {
  }

  lemma OneMore(f: Flow, v: seq<real>, c: Corner, n: nat, k: nat)
    requires f.Valid() && |v| == Pixels(f) && 0 < n <= Pixels(f)
    ensures FromCorner(f, v, c, n, k) == FromCorner(f, v, c, n - 1, k) + v[n - 1] * Hit(f, c, n - 1, k)
  {
    hide Target, Share;
  }

  lemma ReceivedInAll(f: Flow, v: seq<real>, k: nat)
    requires f.Valid() && |v| == Pixels(f)
    ensures Received(f, v, 4, k) == FromCorners(f, v, Pixels(f), k)
  {
    hide FromCorner;
    assert Received(f, v, 1, k) == Received(f, v, 0, k) + FromCorner(f, v, CORNERS[0], Pixels(f), k);
    assert Received(f, v, 2, k) == Received(f, v, 1, k) + FromCorner(f, v, CORNERS[1], Pixels(f), k);
    assert Received(f, v, 3, k) == Received(f, v, 2, k) + FromCorner(f, v, CORNERS[2], Pixels(f), k);
  }

  /** For every flow, splatting is a gather: each point gets from each source, carried to its column and
      row plus the flow, the value times a tent of the distance in each direction. */
  lemma SplatIsGather(f: Flow, v: seq<real>, k: nat)
    requires f.Valid() && |v| == f.h * f.w && k < f.h * f.w
    ensures Received(f, v, 4, k) == Gathered(f, v, |v|, k)
  {
    hide FromCorners, Received, Gathered;
    ReceivedInAll(f, v, k);
    CornersGather(f, v, Pixels(f), k);
  }

  /** Softmax splatting divides two such gathers. */
  lemma SoftmaxIsGather(f: Flow, v: seq<real>, w: seq<real>, k: nat, x: real)
    requires f.Valid() && |v| == |w| == f.h * f.w && k < f.h * f.w && IsSoftmax(f, v, w, k, x)
    ensures x * (Gathered(f, w, |w|, k) + 0.000001) == Gathered(f, Weighted(v, w), |v|, k)
  {
    hide Received, Gathered;
    SplatIsGather(f, w, k);
    SplatIsGather(f, Weighted(v, w), k);
    Undivided(Received(f, Weighted(v, w), 4, k), Received(f, w, 4, k) + EPS);
  }

  lemma Undivided(a: real, b: real)
    requires b > 0.0
    ensures a / b * b == a
  {
  }

  // ----- What leaves the grid

  /** Source n is carried to a place between the grid's outermost columns and rows. */
  predicate Lands(f: Flow, n: nat)
    requires f.Valid() && n < f.h * f.w
  {
    && 0.0 <= (n % f.w) as real + f.dx[n] <= (f.w - 1) as real
    && 0.0 <= (n / f.w) as real + f.dy[n] <= (f.h - 1) as real
  }

  lemma PositiveProduct(a: real, b: real)
    requires a > 0.0 && b > 0.0
    ensures a * b > 0.0
  {
  }

  /** No corner with weight leaves the grid exactly if the source lands in it. */
  lemma StaysInsideIff(f: Flow, n: nat)
    requires f.Valid() && n < Pixels(f)
    ensures StaysInside(f, n) <==> Lands(f, n)
  {
    var a, b := Frac(Px(f, n)), Frac(Py(f, n));
    PositiveProduct(1.0 - a, 1.0 - b);
    assert CORNERS[0] in CORNERS && CORNERS[1] in CORNERS && CORNERS[2] in CORNERS && CORNERS[3] in CORNERS;
    if a > 0.0 {
      PositiveProduct(a, 1.0 - b);
    }
    if b > 0.0 {
      PositiveProduct(1.0 - a, b);
    }
  }

  // ----- Moments

  /** The sum over the first m points of what they receive, each times g of the point. */
  function Moment(f: Flow, v: seq<real>, g: nat -> real, m: nat): real
    requires f.Valid() && |v| == f.h * f.w
  {
    if m == 0 then 0.0 else Moment(f, v, g, m - 1) + g(m - 1) * Received(f, v, 4, m - 1)
  }

  function CornerMoment(f: Flow, v: seq<real>, c: Corner, g: nat -> real, n: nat, m: nat): real
    requires f.Valid() && |v| == Pixels(f) && n <= Pixels(f)
  {
    if m == 0 then 0.0 else CornerMoment(f, v, c, g, n, m - 1) + g(m - 1) * FromCorner(f, v, c, n, m - 1)
  }

  function CornersMoment(f: Flow, v: seq<real>, g: nat -> real, n: nat, m: nat): real
    requires f.Valid() && |v| == Pixels(f) && n <= Pixels(f)
  {
    CornerMoment(f, v, CORNERS[0], g, n, m) + CornerMoment(f, v, CORNERS[1], g, n, m) +
    CornerMoment(f, v, CORNERS[2], g, n, m) + CornerMoment(f, v, CORNERS[3], g, n, m)
  }

  lemma CornersMomentStep(f: Flow, v: seq<real>, g: nat -> real, n: nat, m: nat)
    requires f.Valid() && |v| == Pixels(f) && n <= Pixels(f) && m > 0
    ensures CornersMoment(f, v, g, n, m) == CornersMoment(f, v, g, n, m - 1) + g(m - 1) * FromCorners(f, v, n, m - 1)
  {
    hide FromCorner;
    FourSteps(CornerMoment(f, v, CORNERS[0], g, n, m - 1), CornerMoment(f, v, CORNERS[1], g, n, m - 1),
              CornerMoment(f, v, CORNERS[2], g, n, m - 1), CornerMoment(f, v, CORNERS[3], g, n, m - 1), g(m - 1),
              FromCorner(f, v, CORNERS[0], n, m - 1), FromCorner(f, v, CORNERS[1], n, m - 1),
              FromCorner(f, v, CORNERS[2], n, m - 1), FromCorner(f, v, CORNERS[3], n, m - 1));
  }

  lemma NoPoints(f: Flow, v: seq<real>, g: nat -> real)
    requires f.Valid() && |v| == Pixels(f)
    ensures CornersMoment(f, v, g, Pixels(f), 0) == 0.0
  {
  }

  lemma {:induction false} MomentByCorner(f: Flow, v: seq<real>, g: nat -> real, m: nat)
    requires f.Valid() && |v| == Pixels(f)
    ensures Moment(f, v, g, m) == CornersMoment(f, v, g, Pixels(f), m)
  {
    hide FromCorners, Received, CornersMoment;
    if m == 0 {
      NoPoints(f, v, g);
    } else {
      MomentByCorner(f, v, g, m - 1);
      ReceivedInAll(f, v, m - 1);
      CornersMomentStep(f, v, g, Pixels(f), m);
    }
  }

  lemma {:induction false} MomentOfOneMore(f: Flow, v: seq<real>, c: Corner, g: nat -> real, n: nat, m: nat)
    requires f.Valid() && |v| == Pixels(f) && n < Pixels(f)
    ensures CornerMoment(f, v, c, g, n + 1, m) == CornerMoment(f, v, c, g, n, m) +
      if Target(f, c, n) < m then g(Target(f, c, n)) * (v[n] * Share(f, c, n)) else 0.0
  {
    hide Target, Share;
    if m > 0 {
      MomentOfOneMore(f, v, c, g, n, m - 1);
      var was, more := FromCorner(f, v, c, n, m - 1), v[n] * Share(f, c, n);
      ScaleSum(g(m - 1), was, more);
    }
  }

  lemma {:induction false} MomentOfNothing(f: Flow, v: seq<real>, c: Corner, g: nat -> real, m: nat)
    requires f.Valid() && |v| == Pixels(f)
    ensures CornerMoment(f, v, c, g, 0, m) == 0.0
  {
    if m > 0 {
      MomentOfNothing(f, v, c, g, m - 1);
    }
  }

  /** The share of a corner times g of where it goes. */
  function Sent(f: Flow, c: Corner, g: nat -> real, n: nat): real
    requires f.Valid() && n < Pixels(f)
  {
    Share(f, c, n) * g(Target(f, c, n))
  }

  function SentInAll(f: Flow, g: nat -> real, n: nat): real
    requires f.Valid() && n < Pixels(f)
  {
    Sent(f, CORNERS[0], g, n) + Sent(f, CORNERS[1], g, n) + Sent(f, CORNERS[2], g, n) + Sent(f, CORNERS[3], g, n)
  }

  lemma MomentStep(f: Flow, v: seq<real>, c: Corner, g: nat -> real, n: nat)
    requires f.Valid() && |v| == Pixels(f) && n < Pixels(f)
    ensures CornerMoment(f, v, c, g, n + 1, Pixels(f)) ==
      CornerMoment(f, v, c, g, n, Pixels(f)) + v[n] * Sent(f, c, g, n)
  {
    hide Share, CornerMoment;
    MomentOfOneMore(f, v, c, g, n, Pixels(f));
    Rotate(g(Target(f, c, n)), v[n], Share(f, c, n));
  }

  lemma Rotate(a: real, b: real, c: real)
    ensures a * (b * c) == b * (c * a)
  {
  }

  /** The sum over the first n sources of their value times e of the source. */
  function Weighed(v: seq<real>, e: nat -> real, n: nat): real
    requires n <= |v|
  {
    if n == 0 then 0.0 else Weighed(v, e, n - 1) + v[n - 1] * e(n - 1)
  }

  lemma CornersSendStep(f: Flow, v: seq<real>, g: nat -> real, n: nat)
    requires f.Valid() && |v| == Pixels(f) && n < Pixels(f)
    ensures CornersMoment(f, v, g, n + 1, Pixels(f)) == CornersMoment(f, v, g, n, Pixels(f)) + v[n] * SentInAll(f, g, n)
  {
    hide CornerMoment, Sent;
    MomentStep(f, v, CORNERS[0], g, n);
    MomentStep(f, v, CORNERS[1], g, n);
    MomentStep(f, v, CORNERS[2], g, n);
    MomentStep(f, v, CORNERS[3], g, n);
    var m := Pixels(f);
    FourSteps(CornerMoment(f, v, CORNERS[0], g, n, m), CornerMoment(f, v, CORNERS[1], g, n, m),
              CornerMoment(f, v, CORNERS[2], g, n, m), CornerMoment(f, v, CORNERS[3], g, n, m), v[n],
              Sent(f, CORNERS[0], g, n), Sent(f, CORNERS[1], g, n), Sent(f, CORNERS[2], g, n),
              Sent(f, CORNERS[3], g, n));
  }

  lemma CornersNone(f: Flow, v: seq<real>, g: nat -> real)
    requires f.Valid() && |v| == Pixels(f)
    ensures CornersMoment(f, v, g, 0, Pixels(f)) == 0.0
  {
    hide CornerMoment;
    MomentOfNothing(f, v, CORNERS[0], g, Pixels(f));
    MomentOfNothing(f, v, CORNERS[1], g, Pixels(f));
    MomentOfNothing(f, v, CORNERS[2], g, Pixels(f));
    MomentOfNothing(f, v, CORNERS[3], g, Pixels(f));
  }

  /** If every source sends e(i) in all, the first n sources send Weighed of it. */
  lemma {:induction false} CornersSend(f: Flow, v: seq<real>, g: nat -> real, e: nat -> real, n: nat)
    requires f.Valid() && |v| == Pixels(f) && n <= Pixels(f)
    requires forall i :: 0 <= i < Pixels(f) ==> SentInAll(f, g, i) == e(i)
    ensures CornersMoment(f, v, g, n, Pixels(f)) == Weighed(v, e, n)
  {
    hide CornersMoment, SentInAll;
    if n == 0 {
      CornersNone(f, v, g);
    } else {
      CornersSend(f, v, g, e, n - 1);
      CornersSendStep(f, v, g, n - 1);
      assert SentInAll(f, g, n - 1) == e(n - 1);
    }
  }

  lemma MomentIs(f: Flow, v: seq<real>, g: nat -> real, e: nat -> real)
    requires f.Valid() && |v| == Pixels(f)
    requires forall i :: 0 <= i < Pixels(f) ==> SentInAll(f, g, i) == e(i)
    ensures Moment(f, v, g, Pixels(f)) == Weighed(v, e, |v|)
  {
    hide CornersMoment, Moment, Weighed, SentInAll;
    MomentByCorner(f, v, g, Pixels(f));
    CornersSend(f, v, g, e, Pixels(f));
  }

  function ColumnAt(f: Flow): nat -> real
    requires f.Valid()
  {
    (k: nat) => (k % f.w) as real
  }

  function RowAt(f: Flow): nat -> real
    requires f.Valid()
  {
    (k: nat) => (k / f.w) as real
  }

  /** A corner of a source that lands sends its weight times g of where it goes. */
  lemma SentLine(f: Flow, c: Corner, g: nat -> real, n: nat, x: real)
    requires f.Valid() && n < Pixels(f) && StaysInside(f, n) && c in CORNERS
    requires InGrid(f, c, n) ==> g(Target(f, c, n)) == x
    ensures Sent(f, c, g, n) == Weight(f, c, n) * x
  {
    hide Weight, Target, InGrid;
    if !InGrid(f, c, n) {
      assert Weight(f, c, n) == 0.0;
    }
  }

  lemma SentColumn(f: Flow, c: Corner, n: nat)
    requires f.Valid() && n < Pixels(f) && StaysInside(f, n) && c in CORNERS
    ensures Sent(f, c, ColumnAt(f), n) == Weight(f, c, n) * Column(f, c, n) as real
    ensures Sent(f, c, RowAt(f), n) == Weight(f, c, n) * RowOf(f, c, n) as real
  {
    hide Weight, Sent, Target, Column, RowOf, StaysInside, InGrid;
    if InGrid(f, c, n) {
      TargetIs(f, c, n);
    }
    SentLine(f, c, ColumnAt(f), n, Column(f, c, n) as real);
    SentLine(f, c, RowAt(f), n, RowOf(f, c, n) as real);
  }

  lemma AverageLine(a: real, b: real, m: real)
    ensures (1.0 - a) * (1.0 - b) * m + (1.0 - a) * b * m + a * (1.0 - b) * (m + 1.0) + a * b * (m + 1.0) == m + a
    ensures (1.0 - a) * (1.0 - b) * m + (1.0 - a) * b * (m + 1.0) + a * (1.0 - b) * m + a * b * (m + 1.0) == m + b
  {
    SplitLine(a, b, m);
    SplitLine(b, a, m);
    assert (1.0 - a) * m + a * (m + 1.0) == m + a;
    assert (1.0 - b) * m + b * (m + 1.0) == m + b;
  }

  lemma SplitLine(a: real, b: real, m: real)
    ensures (1.0 - a) * (1.0 - b) * m + (1.0 - a) * b * m == (1.0 - a) * m
    ensures a * (1.0 - b) * (m + 1.0) + a * b * (m + 1.0) == a * (m + 1.0)
    ensures (1.0 - b) * (1.0 - a) * m + (1.0 - b) * a * m == (1.0 - b) * m
    ensures b * (1.0 - a) * (m + 1.0) + b * a * (m + 1.0) == b * (m + 1.0)
  {
  }

  /** The weights of source n's corners times e of the corner. */
  function Average(f: Flow, n: nat, e: Corner -> real): real
    requires f.Valid() && n < Pixels(f)
  {
    Weight(f, CORNERS[0], n) * e(CORNERS[0]) + Weight(f, CORNERS[1], n) * e(CORNERS[1]) +
    Weight(f, CORNERS[2], n) * e(CORNERS[2]) + Weight(f, CORNERS[3], n) * e(CORNERS[3])
  }

  function ColumnsOf(f: Flow, n: nat): Corner -> real
    requires f.Valid() && n < Pixels(f)
  {
    (c: Corner) => Column(f, c, n) as real
  }

  function RowsOf(f: Flow, n: nat): Corner -> real
    requires f.Valid() && n < Pixels(f)
  {
    (c: Corner) => RowOf(f, c, n) as real
  }

  lemma ColumnsAverage(f: Flow, n: nat)
    requires f.Valid() && n < Pixels(f)
    ensures Average(f, n, ColumnsOf(f, n)) == Px(f, n) && Average(f, n, RowsOf(f, n)) == Py(f, n)
  {
    AverageLine(Frac(Px(f, n)), Frac(Py(f, n)), Px(f, n).Floor as real);
    AverageLine(Frac(Px(f, n)), Frac(Py(f, n)), Py(f, n).Floor as real);
  }

  lemma SentIsAverage(f: Flow, n: nat)
    requires f.Valid() && n < Pixels(f) && StaysInside(f, n)
    ensures SentInAll(f, ColumnAt(f), n) == Average(f, n, ColumnsOf(f, n))
    ensures SentInAll(f, RowAt(f), n) == Average(f, n, RowsOf(f, n))
  {
    hide Weight, Sent, Column, RowOf, StaysInside, ColumnAt, RowAt;
    assert CORNERS[0] in CORNERS && CORNERS[1] in CORNERS && CORNERS[2] in CORNERS && CORNERS[3] in CORNERS;
    SentColumn(f, CORNERS[0], n);
    SentColumn(f, CORNERS[1], n);
    SentColumn(f, CORNERS[2], n);
    SentColumn(f, CORNERS[3], n);
  }

  /** Where the flow carries source n, by column and by row. */
  function CarriedColumn(f: Flow): nat -> real
    requires f.Valid()
  {
    (n: nat) => if n < f.h * f.w then (n % f.w) as real + f.dx[n] else 0.0
  }

  function CarriedRow(f: Flow): nat -> real
    requires f.Valid()
  {
    (n: nat) => if n < f.h * f.w then (n / f.w) as real + f.dy[n] else 0.0
  }

  lemma SentAverages(f: Flow, n: nat)
    requires f.Valid() && n < Pixels(f) && StaysInside(f, n)
    ensures SentInAll(f, ColumnAt(f), n) == CarriedColumn(f)(n)
    ensures SentInAll(f, RowAt(f), n) == CarriedRow(f)(n)
  {
    hide SentInAll, Average, StaysInside, ColumnAt, RowAt, Px, Py, CarriedColumn, CarriedRow;
    SentIsAverage(f, n);
    ColumnsAverage(f, n);
    CarriedTo(f, n);
  }

  lemma CarriedTo(f: Flow, n: nat)
    requires f.Valid() && n < Pixels(f)
    ensures CarriedColumn(f)(n) == Px(f, n) && CarriedRow(f)(n) == Py(f, n)
  {
  }

  /** The first moments: when every source lands in the grid, the columns of the output, weighted by what
      each point receives, add up to the sources' columns plus their horizontal flow, weighted by their
      values; and so do the rows with the vertical flow. */
  lemma FirstMoments(f: Flow, v: seq<real>)
    requires f.Valid() && |v| == f.h * f.w && forall n :: 0 <= n < f.h * f.w ==> Lands(f, n)
    ensures Moment(f, v, (k: nat) => (k % f.w) as real, f.h * f.w) ==
      Weighed(v, (n: nat) => if n < f.h * f.w then (n % f.w) as real + f.dx[n] else 0.0, |v|)
    ensures Moment(f, v, (k: nat) => (k / f.w) as real, f.h * f.w) ==
      Weighed(v, (n: nat) => if n < f.h * f.w then (n / f.w) as real + f.dy[n] else 0.0, |v|)
  {
    hide Moment, Weighed, StaysInside, SentInAll;
    forall n | 0 <= n < Pixels(f)
      ensures SentInAll(f, ColumnAt(f), n) == CarriedColumn(f)(n) && SentInAll(f, RowAt(f), n) == CarriedRow(f)(n)
    {
      StaysInsideIff(f, n);
      SentAverages(f, n);
    }
    MomentIs(f, v, ColumnAt(f), CarriedColumn(f));
    MomentIs(f, v, RowAt(f), CarriedRow(f));
  }

  /** A flow preserves the sum of every channel if and only if every source lands in the grid. */
  lemma SumPreservedIffLands(f: Flow)
    requires f.Valid()
    ensures (forall v: seq<real> :: Preserved(f, v)) <==> forall n :: 0 <= n < f.h * f.w ==> Lands(f, n)
  {
    hide Preserved, StaysInside, Lands;
    SumPreservedIff(f);
    forall n | 0 <= n < f.h * f.w ensures StaysInside(f, n) <==> Lands(f, n) {
      StaysInsideIff(f, n);
    }
  }

  // ----- Integer flows

  /** The value x at source i, zero elsewhere. */
  function Single(f: Flow, i: nat, x: real): (v: seq<real>)
    ensures |v| == f.h * f.w && forall j :: 0 <= j < |v| ==> v[j] == if j == i then x else 0.0
  {
    seq(f.h * f.w, j => if j == i then x else 0.0)
  }

  lemma {:induction false} GatheredSingle(f: Flow, i: nat, x: real, n: nat, k: nat)
    requires f.Valid() && i < f.h * f.w && n <= f.h * f.w
    ensures Gathered(f, Single(f, i, x), n, k) == if i < n then x * Pull(f, i, k) else 0.0
  {
    hide Pull;
    if n > 0 {
      GatheredSingle(f, i, x, n - 1, k);
    }
  }

  /** A source moved by whole pixels to the point q, r of the grid puts its whole value there, and nothing
      anywhere else. */
  lemma IntegerFlow(f: Flow, i: nat, x: real, q: int, r: int, k: nat)
    requires f.Valid() && i < f.h * f.w && k < f.h * f.w
    requires f.dx[i] == q as real && f.dy[i] == r as real
    requires 0 <= i % f.w + q < f.w && 0 <= i / f.w + r < f.h
    ensures Received(f, Single(f, i, x), 4, k) == if k == (i / f.w + r) * f.w + (i % f.w + q) then x else 0.0
  {
    hide Received, Gathered;
    SplatIsGather(f, Single(f, i, x), k);
    GatheredSingle(f, i, x, f.h * f.w, k);
    PointSplits(k, f.h, f.w);
    PointOf(i / f.w + r, i % f.w + q, f.w);
    WholeTent(i % f.w + q, k % f.w);
    WholeTent(i / f.w + r, k / f.w);
  }

  lemma WholeTent(a: int, b: int)
    ensures Tent(a as real - b as real) == if a == b then 1.0 else 0.0
  {
  }
}
