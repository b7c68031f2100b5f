/** Exactly when the resolver leaves a stage to None. */
module ResolverMaximal {
  import opened Bytes
  import opened Resolver
  import opened ResolverOptimal
  import opened ResolverIntent

  /** For any table: a candidate that goes together with the chosen backends, for a stage that
      resolves to None, scores no more than the disabled stage it would replace. */
  lemma LeftOutScoresNoMore(caps: Table, pref: Preference, s: Stage, id: nat)
    requires pref.Valid() && DistinctIds(caps)
    requires Resolve(caps, pref).Selected? && Resolve(caps, pref).backend[s] == NONE
    requires id in Candidates(caps, pref, Derive(pref), s)
    ensures ComboValid(caps, Resolve(caps, pref).backend[s := id]) ==> StageScore(caps, s, id, Derive(pref)) <= 0
  {
    hide Resolve, Candidates;
    var p := Resolve(caps, pref).backend;
    ResolvedBackendsWin(caps, pref);
    if ComboValid(caps, p[s := id]) && StageScore(caps, s, id, Derive(pref)) > 0 {
      OneMoreCanWin(caps, pref, p, s, id);
    }
  }

  lemma OneMoreCanWin(caps: Table, pref: Preference, p: Pick, s: Stage, id: nat)
    requires pref.Valid() && CanWin(SpaceOf(caps, pref), p) && p[s] == NONE
    requires id in Candidates(caps, pref, Derive(pref), s) && ComboValid(caps, p[s := id])
    requires StageScore(caps, s, id, Derive(pref)) > 0
    ensures CanWin(SpaceOf(caps, pref), p[s := id])
    ensures Total(caps, p[s := id], Derive(pref)) > Total(caps, p, Derive(pref))
  {
    hide Candidates, StageScore;
    OneMore(caps, p, s, id, Derive(pref));
  }

  lemma OneMore(caps: Table, p: Pick, s: Stage, id: nat, pol: Policy)
    requires p[s] == NONE
    ensures Total(caps, p[s := id], pol) == Total(caps, p, pol) + StageScore(caps, s, id, pol)
  {
    assert s == 0 || s == 1 || s == 2;
  }

  /** A real candidate of stage s that goes together with p's other choices and scores above None. */
  ghost predicate Improves(caps: Table, pref: Preference, p: Pick, s: Stage, id: nat)
    requires pref.Valid()
  {
    && id != NONE && id in Candidates(caps, pref, Derive(pref), s)
    && ComboValid(caps, p[s := id]) && StageScore(caps, s, id, Derive(pref)) > 0
  }

  /** None comes before every other candidate of its stage. */
  lemma NoneFirst(caps: Table, pref: Preference, s: Stage, id: nat)
    requires pref.Valid() && DistinctIds(caps) && id != NONE
    requires NONE in Candidates(caps, pref, Derive(pref), s) && id in Candidates(caps, pref, Derive(pref), s)
    ensures Order(caps, NONE) < Order(caps, id)
  {
    var ids := Candidates(caps, pref, Derive(pref), s);
    CandidatesOrdered(caps, pref, Derive(pref), s);
    assert ids[0] == NONE;
    var x :| 0 <= x < |ids| && ids[x] == id;
  }

  lemma DisablingComesBefore(caps: Table, p: Pick, s: Stage)
    requires Order(caps, NONE) < Order(caps, p[s])
    ensures PickBefore(caps, p[s := NONE], p)
  {
    assert s == 0 || s == 1 || s == 2;
  }

  /** In general: where the stage could also be disabled, it is filled if and only if some real candidate
      goes together with the other choices and scores above None. */
  lemma FilledIffSomethingImproves(caps: Table, pref: Preference, s: Stage)
    requires pref.Valid() && DistinctIds(caps) && Resolve(caps, pref).Selected?
    requires CanWin(SpaceOf(caps, pref), Resolve(caps, pref).backend[s := NONE])
    ensures Resolve(caps, pref).backend[s] != NONE <==>
      exists id: nat :: Improves(caps, pref, Resolve(caps, pref).backend, s, id)
  {
    hide Resolve, Candidates, StageScore;
    var p := Resolve(caps, pref).backend;
    ResolvedBackendsWin(caps, pref);
    if p[s] != NONE {
      FilledImproves(caps, pref, p, s);
    } else if id: nat :| Improves(caps, pref, p, s, id) {
      LeftOutScoresNoMore(caps, pref, s, id);
    }
  }

  lemma FilledImproves(caps: Table, pref: Preference, p: Pick, s: Stage)
    requires pref.Valid() && DistinctIds(caps) && PickWins(SpaceOf(caps, pref), p) && p[s] != NONE
    requires CanWin(SpaceOf(caps, pref), p[s := NONE])
    ensures Improves(caps, pref, p, s, p[s])
  {
    hide Candidates, StageScore, PickBefore, Order;
    var off := p[s := NONE];
    InStage(caps, pref, p, s);
    InStage(caps, pref, off, s);
    NoneFirst(caps, pref, s, p[s]);
    DisablingComesBefore(caps, p, s);
    OneMore(caps, off, s, p[s], Derive(pref));
    assert off[s := p[s]] == p && p[s := p[s]] == p;
  }

  lemma InStage(caps: Table, pref: Preference, p: Pick, s: Stage)
    requires pref.Valid() && CanWin(SpaceOf(caps, pref), p)
    ensures p[s] in Candidates(caps, pref, Derive(pref), s)
  {
    hide Candidates;
    assert s == 0 || s == 1 || s == 2;
  }

  // ----- Stages without family constraints

  /** No entry of the stage has a constraint, and no constraint names the stage. */
  predicate Unconstrained(caps: Table, s: Stage) {
    forall e <- caps :: e.requiresFamilyStage != s && (e.stage == s ==> e.requiresFamilyStage == STAGE_COUNT)
  }

  /** Such a stage may be filled with any entry of its own, or none, without disturbing the others. */
  lemma FreeChoice(caps: Table, p: Pick, s: Stage, id: nat)
    requires Unconstrained(caps, s) && ComboValid(caps, p) && (id == NONE || FindCaps(caps, s, id).Some?)
    ensures ComboValid(caps, p[s := id])
  {
    hide StageOk;
    FreeStage(caps, p, s, id, 0);
    FreeStage(caps, p, s, id, 1);
    FreeStage(caps, p, s, id, 2);
  }

  lemma FreeStage(caps: Table, p: Pick, s: Stage, id: nat, t: Stage)
    requires Unconstrained(caps, s) && StageOk(caps, p, t) && (id == NONE || FindCaps(caps, s, id).Some?)
    ensures StageOk(caps, p[s := id], t)
  {
    FindCapsIn(caps, t, p[t]);
    FindCapsIn(caps, s, id);
  }

  /** The entry at i is the one found under its stage and id. */
  lemma FoundAt(caps: Table, i: nat)
    requires DistinctIds(caps) && i < |caps| && caps[i].stage < STAGE_COUNT
    ensures FindCaps(caps, caps[i].stage, caps[i].id) == Some(caps[i])
  {
    FindCapsIn(caps, caps[i].stage, caps[i].id);
    var b := FindCaps(caps, caps[i].stage, caps[i].id).value;
    var j :| 0 <= j < |caps| && caps[j] == b;
  }

  /** An admitted entry scores above None. */
  predicate WorthHaving(e: BackendCaps, pol: Policy, s: Stage) {
    Passes(e, pol, s) && EntryScore(e, pol) > 0
  }

  lemma WorthImproves(caps: Table, pref: Preference, p: Pick, s: Stage, i: nat)
    requires pref.Valid() && DistinctIds(caps) && Automatic(pref, s) && Unconstrained(caps, s) && ComboValid(caps, p)
    requires i < |caps| && WorthHaving(caps[i], Derive(pref), s)
    ensures Improves(caps, pref, p, s, caps[i].id)
  {
    FoundAt(caps, i);
    assert PassesBelow(caps, Derive(pref), s, |caps|, caps[i].id);
    FilteredIds(caps, Derive(pref), s, |caps|, caps[i].id);
    FreeChoice(caps, p, s, caps[i].id);
  }

  lemma ImprovesWorth(caps: Table, pref: Preference, p: Pick, s: Stage, id: nat) returns (i: nat)
    requires pref.Valid() && DistinctIds(caps) && Automatic(pref, s) && Improves(caps, pref, p, s, id)
    ensures i < |caps| && WorthHaving(caps[i], Derive(pref), s)
  {
    FilteredIds(caps, Derive(pref), s, |caps|, id);
    var j :| 0 <= j < |caps| && caps[j].id == id && Passes(caps[j], Derive(pref), s);
    FoundAt(caps, j);
    i := j;
  }

  lemma CouldBeDisabled(caps: Table, pref: Preference, p: Pick, s: Stage)
    requires pref.Valid() && Modest(caps) && Automatic(pref, s) && Unconstrained(caps, s)
    requires CanWin(SpaceOf(caps, pref), p)
    ensures CanWin(SpaceOf(caps, pref), p[s := NONE])
  {
    hide StageOk;
    FreeChoice(caps, p, s, NONE);
    TotalFits(caps, pref, p[s := NONE]);
    assert NONE in Candidates(caps, pref, Derive(pref), s);
  }

  /** An automatic stage without family constraints resolves to None if and only if no entry that the
      policy admits for it scores above zero: a condition on the table and the policy alone. */
  lemma LeftOutIffNothingWorthHaving(caps: Table, pref: Preference, s: Stage)
    requires pref.Valid() && DistinctIds(caps) && Modest(caps) && Automatic(pref, s) && Unconstrained(caps, s)
    requires Resolve(caps, pref).Selected?
    ensures Resolve(caps, pref).backend[s] == NONE <==>
      forall i :: 0 <= i < |caps| ==> !WorthHaving(caps[i], Derive(pref), s)
  {
    hide Resolve, Improves, WorthHaving, Unconstrained, Modest;
    var p := Resolve(caps, pref).backend;
    ResolvedBackendsWin(caps, pref);
    CouldBeDisabled(caps, pref, p, s);
    FilledIffSomethingImproves(caps, pref, s);
    if id: nat :| Improves(caps, pref, p, s, id) {
      var i := ImprovesWorth(caps, pref, p, s, id);
    }
    if i: nat :| i < |caps| && WorthHaving(caps[i], Derive(pref), s) {
      WorthImproves(caps, pref, p, s, i);
    }
  }

  // ----- When every real backend scores above None

  /** A backend scores above a disabled stage whatever the preference, if and only if a thousand and its
      quality tier outweigh five times its cost. */
  lemma AlwaysWorthIff(e: BackendCaps)
    requires e.qualityTier < 0x8000_0000 && e.costHint < 0x8000_0000
    ensures (forall pref: Preference :: EntryScore(e, Derive(pref)) > 0) <==> 1000 + e.qualityTier > 5 * e.costHint
  {
    if 1000 + e.qualityTier > 5 * e.costHint {
      forall pref: Preference ensures EntryScore(e, Derive(pref)) > 0 {
        WorstScore(e, pref);
      }
    } else {
      assert EntryScore(e, Derive(SPARING)) == 1000 + e.qualityTier - 5 * e.costHint;
    }
  }

  /** The preference that weighs cost most: performance, low latency and low power. */
  const SPARING: Preference :=
    Preference(Perf, true, true, false, false, true, false, GENERIC, 7, [BACKEND_COUNT, BACKEND_COUNT, BACKEND_COUNT])

  lemma WorstScore(e: BackendCaps, pref: Preference)
    requires e.qualityTier < 0x8000_0000 && e.costHint < 0x8000_0000
    ensures EntryScore(e, Derive(pref)) >= 1000 + e.qualityTier - 5 * e.costHint
  {
    DerivedWeights(pref);
    Weighted(1, e.qualityTier, Derive(pref).qualityWeight);
    Weighted(Derive(pref).costWeight, e.costHint, 5);
  }

  /** A table all of whose backends always score above a disabled stage; costs below 200 suffice. */
  predicate Affordable(caps: Table) {
    forall e <- caps :: e.qualityTier < 0x8000_0000 && e.costHint < 0x8000_0000 && 1000 + e.qualityTier > 5 * e.costHint
  }

  /** Nothing usable is left out: if a stage resolves to None, then no real candidate for it goes
      together with the backends chosen for the other stages. */
  lemma ResolvedIsMaximal(caps: Table, pref: Preference, s: Stage, id: nat)
    requires pref.Valid() && DistinctIds(caps) && Affordable(caps)
    requires Resolve(caps, pref).Selected? && Resolve(caps, pref).backend[s] == NONE
    requires id != NONE && id in Candidates(caps, pref, Derive(pref), s)
    ensures !ComboValid(caps, Resolve(caps, pref).backend[s := id])
  {
    hide Resolve, Candidates, StageScore;
    LeftOutScoresNoMore(caps, pref, s, id);
    if ComboValid(caps, Resolve(caps, pref).backend[s := id]) {
      RealBackendsScore(caps, pref, s, id);
    }
  }

  lemma RealBackendsScore(caps: Table, pref: Preference, s: Stage, id: nat)
    requires Affordable(caps) && id != NONE && FindCaps(caps, s, id).Some?
    ensures StageScore(caps, s, id, Derive(pref)) > 0
  {
    FindCapsIn(caps, s, id);
    AlwaysWorthIff(FindCaps(caps, s, id).value);
  }

  /** A backend of tier 0 at the threshold: under SPARING it scores exactly 0. */
  const COSTLY: BackendCaps := BackendCaps(1, 0, GENERIC, true, false, true, 0, 200, 1, STAGE_COUNT, GENERIC)

  /** At cost 200 a supported, unconstrained backend loses to a disabled stage. */
  lemma CostlyBackendIsLeftOut()
    ensures Resolve([COSTLY], SPARING).Selected? && Resolve([COSTLY], SPARING).backend[0] == NONE
    ensures Passes(COSTLY, Derive(SPARING), 0)
  {
    hide Resolve;
    var nothing: Pick := [NONE, NONE, NONE];
    assert Acceptable([COSTLY], SPARING, nothing);
    NoSelectionIff([COSTLY], SPARING);
    ResolveAnswers([COSTLY], SPARING);
    LeftOutIffNothingWorthHaving([COSTLY], SPARING, 0);
  }
}
