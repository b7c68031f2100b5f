/** The cross-stage backend resolver: policy, candidates, constraints and the exhaustive search. */
module Resolver {
  import opened Bytes

  const NONE: nat := 0              // RFX_BACKEND_NONE
  const BACKEND_COUNT: nat := 12    // RFX_BACKEND_COUNT; as an override: automatic
  const STAGE_COUNT: nat := 3       // RFX_STAGE_COUNT; as a required stage: no constraint
  const GENERIC: nat := 0           // RFX_FAMILY_GENERIC; as a vendor pin: no pin
  const INT_MIN: int := -0x8000_0000

  type Stage = s: nat | s < STAGE_COUNT

  datatype BackendCaps = BackendCaps(
    id: nat, stage: nat, family: nat, supported: bool, proprietary: bool, deterministic: bool,
    qualityTier: U32, costHint: U32, requiredInputs: bv32, requiresFamilyStage: nat, requiresFamily: nat)

  /** A capability table. A constraint names a stage or is absent. */
  type Table = t: seq<BackendCaps> | |t| <= BACKEND_COUNT && forall e <- t :: e.requiresFamilyStage <= STAGE_COUNT
    witness []

  datatype Quality = Perf | Balanced | QualityFirst

  datatype Preference = Preference(
    quality: Quality, prioritizeLatency: bool, allowProprietary: bool, openSourceOnly: bool,
    deterministic: bool, powerSaver: bool, debug: bool, vendorPin: nat,
    stagesEnabled: U32, overrides: seq<nat>)
  {
    predicate Valid() { |overrides| == STAGE_COUNT }
  }

  datatype Policy = Policy(
    qualityWeight: int, costWeight: int, excludeProprietary: bool, requireDeterministic: bool,
    vendorPin: nat, preferNative: bool)

  /** rfx_derive_policy. */
  function Derive(pref: Preference): Policy {
    var qw := if pref.quality == QualityFirst then 2 else 1;
    var cw := (if pref.quality == Perf then 2 else 1)
      + (if pref.prioritizeLatency then 1 else 0) + (if pref.powerSaver then 2 else 0);
    Policy(qw, cw, pref.openSourceOnly || !pref.allowProprietary, pref.deterministic || pref.debug,
           pref.vendorPin, pref.debug)
  }

  /** The first entry of a stage with a given id. */
  function FindCaps(caps: seq<BackendCaps>, s: Stage, id: nat): Option<BackendCaps> {
    if caps == [] then None
    else if caps[0].stage == s && caps[0].id == id then Some(caps[0])
    else FindCaps(caps[1..], s, id)
  }

  function EntryScore(b: BackendCaps, pol: Policy): int {
    1000 + pol.qualityWeight * AsInt(b.qualityTier) - pol.costWeight * AsInt(b.costHint)
      + if pol.preferNative && b.family == GENERIC then 200 else 0
  }

  function StageScore(caps: Table, s: Stage, id: nat, pol: Policy): int {
    if id == NONE then 0
    else match FindCaps(caps, s, id)
      case None => -1000
      case Some(b) => EntryScore(b, pol)
  }

  predicate Enabled(pref: Preference, s: Stage) {
    var bit := if s == 0 then 1 else if s == 1 then 2 else 4;
    pref.stagesEnabled / bit % 2 == 1
  }

  /** The filter of the candidate loop. */
  predicate Passes(b: BackendCaps, pol: Policy, s: Stage) {
    && b.stage == s && b.supported && b.id != NONE
    && !(pol.excludeProprietary && b.proprietary)
    && !(pol.requireDeterministic && !b.deterministic)
    && !(pol.vendorPin != GENERIC && b.family != pol.vendorPin)
  }

  /** The ids the filter lets through among the first n entries. */
  function Filtered(caps: Table, pol: Policy, s: Stage, n: nat): (ids: seq<nat>)
    requires n <= |caps|
    ensures |ids| <= n
  {
    if n == 0 then []
    else Filtered(caps, pol, s, n - 1) + if Passes(caps[n - 1], pol, s) then [caps[n - 1].id] else []
  }

  /** Neither disabled nor overridden. */
  predicate Automatic(pref: Preference, s: Stage)
    requires pref.Valid()
  {
    Enabled(pref, s) && pref.overrides[s] == BACKEND_COUNT
  }

  function Candidates(caps: Table, pref: Preference, pol: Policy, s: Stage): seq<nat>
    requires pref.Valid()
  {
    if !Enabled(pref, s) then [NONE]
    else if pref.overrides[s] != BACKEND_COUNT then
      if pref.overrides[s] == NONE then [NONE]
      else match FindCaps(caps, s, pref.overrides[s])
        case Some(b) => if b.supported then [pref.overrides[s]] else []
        case None => []
    else [NONE] + Filtered(caps, pol, s, |caps|)
  }

  type Pick = p: seq<nat> | |p| == STAGE_COUNT witness [0, 0, 0]

  /** The choice of one stage is in the table and its cross-stage constraint is met. */
  predicate StageOk(caps: Table, pick: Pick, s: Stage) {
    pick[s] == NONE ||
    match FindCaps(caps, s, pick[s])
    case None => false
    case Some(b) =>
      b.requiresFamilyStage >= STAGE_COUNT ||
      (pick[b.requiresFamilyStage] != NONE &&
       match FindCaps(caps, b.requiresFamilyStage, pick[b.requiresFamilyStage])
       case None => false
       case Some(rb) => rb.family == b.requiresFamily)
  }

  predicate ComboValid(caps: Table, pick: Pick) {
    StageOk(caps, pick, 0) && StageOk(caps, pick, 1) && StageOk(caps, pick, 2)
  }

  function Total(caps: Table, pick: Pick, pol: Policy): int {
    StageScore(caps, 0, pick[0], pol) + StageScore(caps, 1, pick[1], pol) + StageScore(caps, 2, pick[2], pol)
  }

  // ----- The search, over positions in the three candidate lists

  datatype Ix = Ix(i: nat, j: nat, k: nat)

  function Row(i: nat, j: nat, n: nat): seq<Ix> {
    if n == 0 then [] else Row(i, j, n - 1) + [Ix(i, j, n - 1)]
  }

  function Plane(i: nat, nj: nat, nk: nat): seq<Ix> {
    if nj == 0 then [] else Plane(i, nj - 1, nk) + Row(i, nj - 1, nk)
  }

  function Cube(ni: nat, nj: nat, nk: nat): seq<Ix> {
    if ni == 0 then [] else Cube(ni - 1, nj, nk) + Plane(ni - 1, nj, nk)
  }

  /** The candidate lists of the three stages, and what the search scores. */
  datatype Space = Space(caps: Table, pol: Policy, c0: seq<nat>, c1: seq<nat>, c2: seq<nat>) {
    predicate Has(x: Ix) { x.i < |c0| && x.j < |c1| && x.k < |c2| }

    function At(x: Ix): Pick
      requires Has(x)
    {
      [c0[x.i], c1[x.j], c2[x.k]]
    }

    /** Satisfies the constraints, and can beat the initial best score. */
    predicate Eligible(x: Ix)
      requires Has(x)
    {
      ComboValid(caps, At(x)) && Total(caps, At(x), pol) > INT_MIN
    }

    predicate Holds(xs: seq<Ix>) { forall x <- xs :: Has(x) }

    /** The position the loop holds on to after looking at xs in order. */
    function Best(xs: seq<Ix>): (b: Option<Ix>)
      requires Holds(xs)
      ensures b.Some? ==> Has(b.value)
      decreases |xs|
    {
      if xs == [] then None
      else
        var x := xs[|xs| - 1];
        var b := Best(xs[..|xs| - 1]);
        if Eligible(x) && (b.None? || Total(caps, At(x), pol) > Total(caps, At(b.value), pol)) then Some(x) else b
    }
  }

  function SpaceOf(caps: Table, pref: Preference): Space
    requires pref.Valid()
  {
    var pol := Derive(pref);
    Space(caps, pol, Candidates(caps, pref, pol, 0), Candidates(caps, pref, pol, 1), Candidates(caps, pref, pol, 2))
  }

  datatype Selection = Selected(backend: Pick, requiredInputs: bv32) | NoValidSelection | InvalidArgument

  function InputsOf(caps: Table, pick: Pick, s: Stage): bv32 {
    if pick[s] == NONE then 0
    else match FindCaps(caps, s, pick[s])
      case Some(b) => b.requiredInputs
      case None => 0
  }

  function Inputs(caps: Table, pick: Pick): bv32 {
    InputsOf(caps, pick, 0) | InputsOf(caps, pick, 1) | InputsOf(caps, pick, 2)
  }

  lemma {:induction false} RowInside(i: nat, j: nat, n: nat)
    ensures forall x :: x in Row(i, j, n) <==> x.i == i && x.j == j && x.k < n
  {
    if n > 0 { RowInside(i, j, n - 1); }
  }

  lemma {:induction false} PlaneInside(i: nat, nj: nat, nk: nat)
    ensures forall x :: x in Plane(i, nj, nk) <==> x.i == i && x.j < nj && x.k < nk
  {
    if nj > 0 {
      PlaneInside(i, nj - 1, nk);
      RowInside(i, nj - 1, nk);
    }
  }

  /** The search visits every combination of positions. */
  lemma {:induction false} CubeInside(ni: nat, nj: nat, nk: nat)
    ensures forall x :: x in Cube(ni, nj, nk) <==> x.i < ni && x.j < nj && x.k < nk
  {
    hide Plane;
    if ni > 0 {
      CubeInside(ni - 1, nj, nk);
      PlaneInside(ni - 1, nj, nk);
      forall x ensures x in Cube(ni, nj, nk) <==> x.i < ni && x.j < nj && x.k < nk {
        assert x in Cube(ni, nj, nk) <==> x in Cube(ni - 1, nj, nk) || x in Plane(ni - 1, nj, nk);
      }
    }
  }

  predicate LexBefore(x: Ix, y: Ix) {
    x.i < y.i || (x.i == y.i && (x.j < y.j || (x.j == y.j && x.k < y.k)))
  }

  predicate LexSorted(xs: seq<Ix>) {
    forall m, n :: 0 <= m < n < |xs| ==> LexBefore(xs[m], xs[n])
  }

  lemma EmptySorted()
    ensures LexSorted([])
  {
  }

  lemma {:induction false} RowSorted(i: nat, j: nat, n: nat)
    ensures LexSorted(Row(i, j, n))
  {
    if n > 0 {
      RowSorted(i, j, n - 1);
      RowInside(i, j, n - 1);
      SortedAppend(Row(i, j, n - 1), [Ix(i, j, n - 1)]);
    }
  }

  lemma SortedAppend(a: seq<Ix>, b: seq<Ix>)
    requires LexSorted(a) && LexSorted(b) && forall x, y :: x in a && y in b ==> LexBefore(x, y)
    ensures LexSorted(a + b)
  {
  }

  lemma {:induction false} PlaneSorted(i: nat, nj: nat, nk: nat)
    ensures LexSorted(Plane(i, nj, nk))
  {
    hide LexSorted, Row;
    if nj == 0 {
      EmptySorted();
    } else {
      PlaneSorted(i, nj - 1, nk);
      RowSorted(i, nj - 1, nk);
      PlaneInside(i, nj - 1, nk);
      RowInside(i, nj - 1, nk);
      SortedAppend(Plane(i, nj - 1, nk), Row(i, nj - 1, nk));
    }
  }

  /** The search visits the combinations in lexicographic order of their positions. */
  lemma {:induction false} CubeSorted(ni: nat, nj: nat, nk: nat)
    ensures LexSorted(Cube(ni, nj, nk))
  {
    hide LexSorted, Plane;
    if ni == 0 {
      EmptySorted();
    } else {
      CubeSorted(ni - 1, nj, nk);
      PlaneSorted(ni - 1, nj, nk);
      CubeInside(ni - 1, nj, nk);
      PlaneInside(ni - 1, nj, nk);
      SortedAppend(Cube(ni - 1, nj, nk), Plane(ni - 1, nj, nk));
    }
  }

  function AllPositions(sp: Space): (xs: seq<Ix>)
    ensures sp.Holds(xs)
  {
    CubeInside(|sp.c0|, |sp.c1|, |sp.c2|);
    Cube(|sp.c0|, |sp.c1|, |sp.c2|)
  }

  /** rfx_resolve. */
  function Resolve(caps: Table, pref: Preference): Selection
    requires pref.Valid()
  {
    var sp := SpaceOf(caps, pref);
    match sp.Best(AllPositions(sp))
    case None => NoValidSelection
    case Some(x) => Selected(sp.At(x), Inputs(caps, sp.At(x)))
  }
}
