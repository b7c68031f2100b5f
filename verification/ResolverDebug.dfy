/** What debug mode does to the answer: it narrows the filter, and it scores vendor-neutral backends
    higher. */
module ResolverDebug {
  import opened Bytes
  import opened Resolver
  import opened ResolverOptimal
  import opened ResolverIntent

  function Debugged(pref: Preference): Preference { pref.(debug := true) }

  /** The best score, where there is a selection. */
  function BestScore(caps: Table, pref: Preference): int
    requires pref.Valid() && Resolve(caps, pref).Selected?
  {
    Total(caps, Resolve(caps, pref).backend, Derive(pref))
  }

  /** Debug mode only drops candidates, so it never turns no selection into one. */
  lemma DebugNeverSelectsMore(caps: Table, pref: Preference)
    requires pref.Valid() && Modest(caps) && Resolve(caps, Debugged(pref)).Selected?
    ensures Resolve(caps, pref).Selected?
    ensures CanWin(SpaceOf(caps, pref), Resolve(caps, Debugged(pref)).backend)
  {
    hide Resolve, Candidates, SpaceOf;
    var x := ResolveIsFirstMaximum(caps, Debugged(pref));
    var p := Resolve(caps, Debugged(pref)).backend;
    WinnerIsCandidate(caps, Debugged(pref), x);
    TotalFits(caps, pref, p);
    CandidatesShrink(caps, pref, Debugged(pref), 0, p[0]);
    CandidatesShrink(caps, pref, Debugged(pref), 1, p[1]);
    CandidatesShrink(caps, pref, Debugged(pref), 2, p[2]);
    IsCandidate(caps, pref, p);
    NoneCanWin(caps, pref);
    ResolveAnswers(caps, pref);
  }

  lemma WinnerIsCandidate(caps: Table, pref: Preference, x: Ix)
    requires pref.Valid() && Wins(SpaceOf(caps, pref), x)
    ensures var p := SpaceOf(caps, pref).At(x);
      ComboValid(caps, p) && forall s: Stage :: p[s] in Candidates(caps, pref, Derive(pref), s)
  {
    EligibleAcceptable(caps, pref, x);
  }

  lemma IsCandidate(caps: Table, pref: Preference, p: Pick)
    requires pref.Valid() && ComboValid(caps, p) && Total(caps, p, Derive(pref)) > INT_MIN
    requires p[0] in Candidates(caps, pref, Derive(pref), 0) && p[1] in Candidates(caps, pref, Derive(pref), 1)
    requires p[2] in Candidates(caps, pref, Derive(pref), 2)
    ensures CanWin(SpaceOf(caps, pref), p)
  {
  }

  // ----- Combinations with a vendor-neutral backend

  /** None, or found and supported. */
  predicate UsableAt(caps: Table, p: Pick, s: Stage) {
    p[s] == NONE || match FindCaps(caps, s, p[s]) case Some(b) => b.supported case None => false
  }

  predicate NativeAt(caps: Table, p: Pick, s: Stage) {
    p[s] != NONE && match FindCaps(caps, s, p[s]) case Some(b) => b.family == GENERIC case None => false
  }

  /** Supported backends that go together, at least one of them vendor-neutral. */
  predicate UsableNative(caps: Table, p: Pick) {
    && ComboValid(caps, p) && UsableAt(caps, p, 0) && UsableAt(caps, p, 1) && UsableAt(caps, p, 2)
    && (NativeAt(caps, p, 0) || NativeAt(caps, p, 1) || NativeAt(caps, p, 2))
  }

  function Natives(caps: Table, p: Pick): nat {
    (if NativeAt(caps, p, 0) then 1 else 0) + (if NativeAt(caps, p, 1) then 1 else 0)
      + if NativeAt(caps, p, 2) then 1 else 0
  }

  lemma DebugStageScore(caps: Table, pref: Preference, p: Pick, s: Stage)
    requires !pref.debug
    ensures StageScore(caps, s, p[s], Derive(Debugged(pref))) ==
      StageScore(caps, s, p[s], Derive(pref)) + if NativeAt(caps, p, s) then 200 else 0
  {
  }

  /** Debug mode adds 200 for each vendor-neutral backend of a combination. */
  lemma DebugTotal(caps: Table, pref: Preference, p: Pick)
    requires !pref.debug
    ensures Total(caps, p, Derive(Debugged(pref))) == Total(caps, p, Derive(pref)) + 200 * Natives(caps, p)
  {
    hide StageScore, NativeAt, Derive;
    DebugStageScore(caps, pref, p, 0);
    DebugStageScore(caps, pref, p, 1);
    DebugStageScore(caps, pref, p, 2);
  }

  lemma CandidateUsable(caps: Table, pref: Preference, p: Pick, s: Stage)
    requires pref.Valid() && DistinctIds(caps) && p[s] in Candidates(caps, pref, Derive(pref), s)
    ensures UsableAt(caps, p, s)
  {
    if Automatic(pref, s) && p[s] != NONE {
      FilteredIds(caps, Derive(pref), s, |caps|, p[s]);
      var i :| 0 <= i < |caps| && caps[i].id == p[s] && Passes(caps[i], Derive(pref), s);
      FindCapsIn(caps, s, p[s]);
      var b := FindCaps(caps, s, p[s]).value;
      var j :| 0 <= j < |caps| && caps[j] == b;
    }
  }

  lemma ResolvedUsable(caps: Table, pref: Preference)
    requires pref.Valid() && DistinctIds(caps) && Resolve(caps, pref).Selected?
    ensures var p := Resolve(caps, pref).backend;
      ComboValid(caps, p) && UsableAt(caps, p, 0) && UsableAt(caps, p, 1) && UsableAt(caps, p, 2)
  {
    hide Resolve, UsableAt, Candidates;
    ResolvedBackendsWin(caps, pref);
    var p := Resolve(caps, pref).backend;
    CandidateUsable(caps, pref, p, 0);
    CandidateUsable(caps, pref, p, 1);
    CandidateUsable(caps, pref, p, 2);
  }

  // ----- When debug mode raises the best score

  /** Debug mode gets a better score than the preference it is added to. */
  predicate Raised(caps: Table, pref: Preference)
    requires pref.Valid()
  {
    && Resolve(caps, pref).Selected? && Resolve(caps, Debugged(pref)).Selected?
    && BestScore(caps, Debugged(pref)) > BestScore(caps, pref)
  }

  /** Debug mode raises the best score by at most 200 for each vendor-neutral backend it picks. */
  lemma DebugRaisesByNatives(caps: Table, pref: Preference)
    requires pref.Valid() && !pref.debug && DistinctIds(caps) && Modest(caps)
    requires Resolve(caps, Debugged(pref)).Selected?
    ensures Resolve(caps, pref).Selected?
    ensures BestScore(caps, Debugged(pref)) <=
      BestScore(caps, pref) + 200 * Natives(caps, Resolve(caps, Debugged(pref)).backend)
  {
    hide Resolve, SpaceOf, CanWin, Natives, Total;
    var p := Resolve(caps, Debugged(pref)).backend;
    DebugNeverSelectsMore(caps, pref);
    ResolvedBackendsWin(caps, pref);
    SpaceFields(caps, pref);
    DebugTotal(caps, pref, p);
  }

  /** The preference that overrides every stage with p. */
  function Fixed(p: Pick): Preference {
    Preference(Balanced, false, true, false, false, false, false, GENERIC, 7, p)
  }

  lemma FixedCandidates(caps: Table, p: Pick, pref: Preference, s: Stage)
    requires IdsInRange(caps) && UsableAt(caps, p, s) && pref in {Fixed(p), Debugged(Fixed(p))}
    ensures Candidates(caps, pref, Derive(pref), s) == [p[s]]
  {
    FindCapsIn(caps, s, p[s]);
  }

  /** With one candidate for each stage, no other combination can win. */
  lemma OnlyChoice(caps: Table, pref: Preference, p: Pick, q: Pick)
    requires pref.Valid() && CanWin(SpaceOf(caps, pref), q)
    requires Candidates(caps, pref, Derive(pref), 0) == [p[0]] && Candidates(caps, pref, Derive(pref), 1) == [p[1]]
    requires Candidates(caps, pref, Derive(pref), 2) == [p[2]]
    ensures q == p
  {
    hide Candidates, Total, ComboValid;
  }

  lemma OnlyChoiceResolves(caps: Table, pref: Preference, p: Pick)
    requires pref.Valid() && DistinctIds(caps) && CanWin(SpaceOf(caps, pref), p)
    requires Candidates(caps, pref, Derive(pref), 0) == [p[0]] && Candidates(caps, pref, Derive(pref), 1) == [p[1]]
    requires Candidates(caps, pref, Derive(pref), 2) == [p[2]]
    ensures Resolve(caps, pref).Selected? && Resolve(caps, pref).backend == p
  {
    hide Resolve, Candidates, CanWin, SpaceOf;
    NoneCanWin(caps, pref);
    ResolveAnswers(caps, pref);
    ResolvedBackendsWin(caps, pref);
    OnlyChoice(caps, pref, p, Resolve(caps, pref).backend);
  }

  lemma FixedResolves(caps: Table, p: Pick, pref: Preference)
    requires IdsInRange(caps) && DistinctIds(caps) && Modest(caps) && UsableNative(caps, p)
    requires pref in {Fixed(p), Debugged(Fixed(p))}
    ensures Resolve(caps, pref).Selected? && Resolve(caps, pref).backend == p
  {
    hide Resolve, Candidates, CanWin, SpaceOf, UsableAt, NativeAt, ComboValid, Total;
    FixedCandidates(caps, p, pref, 0);
    FixedCandidates(caps, p, pref, 1);
    FixedCandidates(caps, p, pref, 2);
    TotalFits(caps, pref, p);
    IsCandidate(caps, pref, p);
    OnlyChoiceResolves(caps, pref, p);
  }

  lemma NativeRaised(caps: Table, p: Pick)
    requires IdsInRange(caps) && DistinctIds(caps) && Modest(caps) && UsableNative(caps, p)
    ensures Fixed(p).Valid() && !Fixed(p).debug && Raised(caps, Fixed(p))
  {
    hide Resolve, NativeAt, Total;
    FixedResolves(caps, p, Fixed(p));
    FixedResolves(caps, p, Debugged(Fixed(p)));
    DebugTotal(caps, Fixed(p), p);
  }

  /** Debug mode never raises the best score of any preference, if and only if the table offers no
      combination of supported backends that goes together and has a vendor-neutral one in it. */
  lemma DebugNeverRaisesIff(caps: Table)
    requires DistinctIds(caps) && IdsInRange(caps) && Modest(caps)
    ensures (forall pref: Preference :: pref.Valid() && !pref.debug ==> !Raised(caps, pref)) <==>
      forall p: Pick :: !UsableNative(caps, p)
  {
    hide Resolve, UsableNative, Raised, IdsInRange, DistinctIds, Modest;
    if p: Pick :| UsableNative(caps, p) {
      NativeRaised(caps, p);
    } else {
      forall pref: Preference | pref.Valid() && !pref.debug ensures !Raised(caps, pref) {
        if Raised(caps, pref) {
          var p := RaisedByNative(caps, pref);
        }
      }
    }
  }

  lemma RaisedByNative(caps: Table, pref: Preference) returns (p: Pick)
    requires pref.Valid() && !pref.debug && DistinctIds(caps) && Modest(caps) && Raised(caps, pref)
    ensures UsableNative(caps, p)
  {
    hide Resolve, UsableAt, NativeAt, Total;
    p := Resolve(caps, Debugged(pref)).backend;
    ResolvedUsable(caps, Debugged(pref));
    DebugRaisesByNatives(caps, pref);
  }

  // ----- When debug mode changes an answer that survives

  const BETTER: BackendCaps := BackendCaps(2, 0, 1, true, false, true, 75, 22, 1, STAGE_COUNT, GENERIC)

  const BALANCED: Preference :=
    Preference(Balanced, false, true, false, false, false, false, GENERIC, 7,
               [BACKEND_COUNT, BACKEND_COUNT, BACKEND_COUNT])

  /** A vendor-neutral backend beside a vendor's own of more quality, both reproducible. */
  const TWO: Table := [OPEN_NATIVE, BETTER]

  lemma TwoCandidates(pref: Preference)
    requires pref in {BALANCED, Debugged(BALANCED)}
    ensures Candidates(TWO, pref, Derive(pref), 0) == [NONE, 1, 2]
    ensures Candidates(TWO, pref, Derive(pref), 1) == [NONE] == Candidates(TWO, pref, Derive(pref), 2)
  {
    var pol := Derive(pref);
    assert Filtered(TWO, pol, 0, 1) == [1] && Filtered(TWO, pol, 0, 2) == [1, 2];
    assert Filtered(TWO, pol, 1, 1) == [] && Filtered(TWO, pol, 1, 2) == [];
    assert Filtered(TWO, pol, 2, 1) == [] && Filtered(TWO, pol, 2, 2) == [];
  }

  lemma TwoScores(pref: Preference)
    requires pref in {BALANCED, Debugged(BALANCED)}
    ensures forall p: Pick :: p in {[NONE, NONE, NONE], [1, NONE, NONE], [2, NONE, NONE]} ==> ComboValid(TWO, p)
    ensures Total(TWO, [NONE, NONE, NONE], Derive(pref)) == 0
    ensures Total(TWO, [1, NONE, NONE], Derive(pref)) == if pref.debug then 1215 else 1015
    ensures Total(TWO, [2, NONE, NONE], Derive(pref)) == 1053
  {
    assert FindCaps(TWO, 0, 1) == Some(OPEN_NATIVE);
    assert TWO[1..] == [BETTER];
    assert FindCaps(TWO[1..], 0, 2) == Some(BETTER);
  }

  lemma TwoResolves(pref: Preference)
    requires pref in {BALANCED, Debugged(BALANCED)}
    ensures Resolve(TWO, pref).Selected?
    ensures Resolve(TWO, pref).backend == if pref.debug then [1, NONE, NONE] else [2, NONE, NONE]
  {
    hide Resolve, Candidates, Total, ComboValid;
    var best: Pick := if pref.debug then [1, NONE, NONE] else [2, NONE, NONE];
    TwoCandidates(pref);
    TwoScores(pref);
    IsCandidate(TWO, pref, best);
    NoneCanWin(TWO, pref);
    ResolveAnswers(TWO, pref);
    ResolvedBackendsWin(TWO, pref);
    var p := Resolve(TWO, pref).backend;
    assert p == [p[0], NONE, NONE];
  }

  /** On that table debug mode raises the best score, and changes the answer although the backend chosen
      without it is still a candidate. */
  lemma DebugChangesSurvivor()
    ensures Resolve(TWO, BALANCED).Selected? && Resolve(TWO, Debugged(BALANCED)).Selected?
    ensures Survives(TWO, BALANCED, Debugged(BALANCED), Resolve(TWO, BALANCED).backend)
    ensures Resolve(TWO, Debugged(BALANCED)).backend != Resolve(TWO, BALANCED).backend
    ensures Raised(TWO, BALANCED)
  {
    hide Resolve, Candidates, Total;
    TwoResolves(BALANCED);
    TwoResolves(Debugged(BALANCED));
    TwoScores(BALANCED);
    TwoScores(Debugged(BALANCED));
    TwoCandidates(Debugged(BALANCED));
  }
}
