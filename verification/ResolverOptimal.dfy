/** What the resolver's answer means, and how it moves when the intent is narrowed. */
module ResolverOptimal {
  import opened Bytes
  import opened Resolver

  // ----- First maximum

  /** x is eligible, nothing eligible among xs scores higher, and nothing eligible that xs visits
      before it scores as high. */
  ghost predicate FirstMaximum(sp: Space, xs: seq<Ix>, x: Ix)
    requires sp.Holds(xs)
  {
    && x in xs && sp.Eligible(x)
    && (forall y :: y in xs && sp.Eligible(y) ==> ScoreOf(sp, y) <= ScoreOf(sp, x))
    && (forall y :: y in xs && sp.Eligible(y) && LexBefore(y, x) ==> ScoreOf(sp, y) < ScoreOf(sp, x))
  }

  function ScoreOf(sp: Space, x: Ix): int
    requires sp.Has(x)
  {
    Total(sp.caps, sp.At(x), sp.pol)
  }

  lemma LexTotal(x: Ix, y: Ix)
    ensures LexBefore(x, y) || LexBefore(y, x) || x == y
    ensures !(LexBefore(x, y) && LexBefore(y, x))
  {
  }

  lemma {:induction false} BestIsFirst(sp: Space, xs: seq<Ix>)
    requires sp.Holds(xs) && LexSorted(xs)
    ensures sp.Best(xs).None? ==> forall y :: y in xs ==> !sp.Eligible(y)
    ensures sp.Best(xs).Some? ==> FirstMaximum(sp, xs, sp.Best(xs).value)
    decreases |xs|
  {
    if xs != [] {
      var front, last := xs[..|xs| - 1], xs[|xs| - 1];
      BestIsFirst(sp, front);
      assert xs == front + [last];
    }
  }

  /** x is the lexicographically first position of maximal score among all eligible ones. */
  ghost predicate Wins(sp: Space, x: Ix) {
    && sp.Has(x) && sp.Eligible(x)
    && (forall y :: sp.Has(y) && sp.Eligible(y) ==> ScoreOf(sp, y) <= ScoreOf(sp, x))
    && (forall y :: sp.Has(y) && sp.Eligible(y) && LexBefore(y, x) ==> ScoreOf(sp, y) < ScoreOf(sp, x))
  }

  ghost predicate NoneEligible(sp: Space) {
    forall x :: sp.Has(x) ==> !sp.Eligible(x)
  }

  lemma SearchWins(sp: Space)
    ensures sp.Best(AllPositions(sp)).None? ==> NoneEligible(sp)
    ensures sp.Best(AllPositions(sp)).Some? ==> Wins(sp, sp.Best(AllPositions(sp)).value)
  {
    CubeInside(|sp.c0|, |sp.c1|, |sp.c2|);
    CubeSorted(|sp.c0|, |sp.c1|, |sp.c2|);
    BestIsFirst(sp, AllPositions(sp));
  }

  /** The resolver answers with the lexicographically first maximum, and with no selection if and only
      if no combination of candidates is eligible. */
  lemma ResolveIsFirstMaximum(caps: Table, pref: Preference) returns (x: Ix)
    requires pref.Valid()
    ensures Resolve(caps, pref).NoValidSelection? <==> NoneEligible(SpaceOf(caps, pref))
    ensures Resolve(caps, pref).Selected? ==>
      Wins(SpaceOf(caps, pref), x) && SpaceOf(caps, pref).At(x) == Resolve(caps, pref).backend
    ensures !Resolve(caps, pref).InvalidArgument?
  {
    var sp := SpaceOf(caps, pref);
    SearchWins(sp);
    x := if sp.Best(AllPositions(sp)).Some? then sp.Best(AllPositions(sp)).value else Ix(0, 0, 0);
  }

  // ----- Which combinations there are

  ghost predicate FromCandidates(sp: Space, pick: Pick) {
    pick[0] in sp.c0 && pick[1] in sp.c1 && pick[2] in sp.c2
  }

  lemma PickHasPosition(sp: Space, pick: Pick) returns (x: Ix)
    requires FromCandidates(sp, pick)
    ensures sp.Has(x) && sp.At(x) == pick
  {
    var i :| 0 <= i < |sp.c0| && sp.c0[i] == pick[0];
    var j :| 0 <= j < |sp.c1| && sp.c1[j] == pick[1];
    var k :| 0 <= k < |sp.c2| && sp.c2[k] == pick[2];
    x := Ix(i, j, k);
  }

  /** Table values for which all score arithmetic stays within a C int: far above the documented
      0 to 100 of a quality tier. */
  predicate Modest(caps: Table) {
    forall e <- caps :: e.qualityTier <= 100_000_000 && e.costHint <= 100_000_000
  }

  predicate IsInt32(x: int) { -0x8000_0000 <= x < 0x8000_0000 }

  lemma DerivedWeights(pref: Preference)
    ensures 1 <= Derive(pref).qualityWeight <= 2 && 1 <= Derive(pref).costWeight <= 5
  {
  }

  lemma Weighted(w: int, x: int, n: int)
    requires 0 <= w <= n && 0 <= x
    ensures 0 <= w * x <= n * x
  {
  }

  lemma {:induction false} FindCapsIn(caps: seq<BackendCaps>, s: Stage, id: nat)
    ensures match FindCaps(caps, s, id)
      case Some(b) => b in caps && b.stage == s && b.id == id
      case None => forall e <- caps :: !(e.stage == s && e.id == id)
  {
    if caps != [] && !(caps[0].stage == s && caps[0].id == id) {
      FindCapsIn(caps[1..], s, id);
      assert forall e :: e in caps <==> e == caps[0] || e in caps[1..];
    }
  }

  /** No step of the score arithmetic overflows a C int on such a table. */
  lemma ScoresFit(caps: Table, pref: Preference, b: BackendCaps)
    requires Modest(caps) && b in caps
    ensures var pol := Derive(pref);
      && IsInt32(pol.qualityWeight * AsInt(b.qualityTier)) && IsInt32(1000 + pol.qualityWeight * AsInt(b.qualityTier))
      && IsInt32(pol.costWeight * AsInt(b.costHint))
      && IsInt32(1000 + pol.qualityWeight * AsInt(b.qualityTier) - pol.costWeight * AsInt(b.costHint))
      && -500_000_000 <= EntryScore(b, pol) <= 200_001_200
  {
    var pol := Derive(pref);
    DerivedWeights(pref);
    Weighted(pol.qualityWeight, AsInt(b.qualityTier), 2);
    Weighted(pol.costWeight, AsInt(b.costHint), 5);
  }

  lemma TotalFits(caps: Table, pref: Preference, pick: Pick)
    requires Modest(caps)
    ensures IsInt32(Total(caps, pick, Derive(pref))) && Total(caps, pick, Derive(pref)) > INT_MIN
    ensures IsInt32(StageScore(caps, 0, pick[0], Derive(pref)) + StageScore(caps, 1, pick[1], Derive(pref)))
  {
    forall s: Stage ensures -500_000_000 <= StageScore(caps, s, pick[s], Derive(pref)) <= 200_001_200 {
      FindCapsIn(caps, s, pick[s]);
      if pick[s] != NONE && FindCaps(caps, s, pick[s]).Some? {
        ScoresFit(caps, pref, FindCaps(caps, s, pick[s]).value);
      }
    }
  }

  /** One candidate for each stage, meeting the constraints, with a score the search can start from. */
  ghost predicate Acceptable(caps: Table, pref: Preference, pick: Pick)
    requires pref.Valid()
  {
    && (forall s: Stage :: pick[s] in Candidates(caps, pref, Derive(pref), s))
    && ComboValid(caps, pick) && Total(caps, pick, Derive(pref)) > INT_MIN
  }

  /** There is no selection exactly when no choice of one candidate per stage is acceptable. The search
      starts from INT_MIN and wants strictly more, so a total of INT_MIN or less is never taken. */
  lemma NoSelectionIff(caps: Table, pref: Preference)
    requires pref.Valid()
    ensures Resolve(caps, pref).NoValidSelection? <==> forall pick: Pick :: !Acceptable(caps, pref, pick)
  {
    var sp := SpaceOf(caps, pref);
    var w := ResolveIsFirstMaximum(caps, pref);
    if NoneEligible(sp) {
      forall pick: Pick ensures !Acceptable(caps, pref, pick) {
        if Acceptable(caps, pref, pick) {
          var x := PickHasPosition(sp, pick);
        }
      }
    } else {
      var x :| sp.Has(x) && sp.Eligible(x);
      EligibleAcceptable(caps, pref, x);
    }
  }

  lemma EligibleAcceptable(caps: Table, pref: Preference, x: Ix)
    requires pref.Valid() && SpaceOf(caps, pref).Has(x) && SpaceOf(caps, pref).Eligible(x)
    ensures Acceptable(caps, pref, SpaceOf(caps, pref).At(x))
  {
    hide Candidates;
    var sp := SpaceOf(caps, pref);
    forall s: Stage ensures sp.At(x)[s] in Candidates(caps, pref, Derive(pref), s) {
      assert s == 0 || s == 1 || s == 2;
    }
  }

  /** With overflow-free scores there is no selection exactly when no combination of candidates meets
      the constraints. */
  lemma NoSelectionIffNoCombination(caps: Table, pref: Preference)
    requires pref.Valid() && Modest(caps)
    ensures Resolve(caps, pref).NoValidSelection? <==>
      forall pick: Pick ::
        (forall s: Stage :: pick[s] in Candidates(caps, pref, Derive(pref), s)) ==> !ComboValid(caps, pick)
  {
    hide Resolve, Candidates;
    NoSelectionIff(caps, pref);
    forall pick: Pick ensures Total(caps, pick, Derive(pref)) > INT_MIN {
      TotalFits(caps, pref, pick);
    }
    if pick: Pick :| (forall s: Stage :: pick[s] in Candidates(caps, pref, Derive(pref), s)) && ComboValid(caps, pick) {
      assert Acceptable(caps, pref, pick);
    } else {
      forall pick: Pick ensures !Acceptable(caps, pref, pick) {
      }
    }
  }

  // ----- Inputs

  predicate Meets(a: bv32, b: bv32) { a & b != 0 }

  predicate Wants(caps: Table, pick: Pick, s: Stage, bit: bv32) {
    Meets(InputsOf(caps, pick, s), bit)
  }

  lemma InputsUnion(caps: Table, pick: Pick, bit: bv32)
    ensures Meets(Inputs(caps, pick), bit) <==> exists s: Stage :: Wants(caps, pick, s, bit)
  {
    hide InputsOf, Meets;
    OrMeets(InputsOf(caps, pick, 0), InputsOf(caps, pick, 1), InputsOf(caps, pick, 2), bit);
    StageCases(caps, pick, bit);
  }

  lemma StageCases(caps: Table, pick: Pick, bit: bv32)
    ensures (exists s: Stage :: Wants(caps, pick, s, bit)) <==>
      Wants(caps, pick, 0, bit) || Wants(caps, pick, 1, bit) || Wants(caps, pick, 2, bit)
  {
    hide Wants;
    if s: Stage :| Wants(caps, pick, s, bit) {
      assert s == 0 || s == 1 || s == 2;
    }
  }

  /** A frame input is asked for exactly if the backend chosen for some stage requires it. */
  lemma InputsAreUnion(caps: Table, pref: Preference, bit: bv32)
    requires pref.Valid() && Resolve(caps, pref).Selected?
    ensures Meets(Resolve(caps, pref).requiredInputs, bit) <==>
      exists s: Stage :: Wants(caps, Resolve(caps, pref).backend, s, bit)
  {
    hide Inputs, Wants, Meets, SpaceOf;
    InputsUnion(caps, Resolve(caps, pref).backend, bit);
  }

  lemma OrMeets(a: bv32, b: bv32, c: bv32, bit: bv32)
    ensures Meets(a | b | c, bit) <==> Meets(a, bit) || Meets(b, bit) || Meets(c, bit)
  {
    hide Meets;
    OrMeetsTwo(a | b, c, bit);
    OrMeetsTwo(a, b, bit);
  }

  lemma OrMeetsTwo(a: bv32, b: bv32, bit: bv32)
    ensures Meets(a | b, bit) <==> Meets(a, bit) || Meets(b, bit)
  {
    OrZero(a & bit, b & bit);
  }

  lemma OrZero(a: bv32, b: bv32)
    ensures a | b == 0 <==> a == 0 && b == 0
  {
  }
}
