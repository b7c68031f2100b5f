/** How the answer moves when the intent is narrowed, why it leaves no usable stage out, and why the
    candidate arrays never overflow. */
module ResolverIntent {
  import opened Bytes
  import opened Resolver
  import opened ResolverOptimal

  // ----- Tables with distinct ids

  predicate DistinctIds(caps: Table) {
    forall i, j :: 0 <= i < j < |caps| ==> caps[i].id != caps[j].id
  }

  predicate IdsInRange(caps: Table) {
    forall e <- caps :: e.id < BACKEND_COUNT
  }

  predicate NoRepeats(xs: seq<nat>) {
    forall i, j :: 0 <= i < j < |xs| ==> xs[i] != xs[j]
  }

  /** Where in the first n entries an id is, or -1. */
  function Position(caps: Table, n: nat, id: nat): int
    requires n <= |caps|
  {
    if n == 0 then -1 else if caps[n - 1].id == id then n - 1 else Position(caps, n - 1, id)
  }

  /** The order in which candidates are listed: None, then table order. */
  function Order(caps: Table, id: nat): int {
    if id == NONE then -1 else Position(caps, |caps|, id)
  }

  lemma {:induction false} PositionOf(caps: Table, n: nat, i: nat)
    requires i < n <= |caps| && DistinctIds(caps)
    ensures Position(caps, n, caps[i].id) == i
  {
    if i < n - 1 {
      PositionOf(caps, n - 1, i);
    }
  }

  /** Some entry below n has this id and passes the filter. */
  predicate PassesBelow(caps: Table, pol: Policy, s: Stage, n: nat, id: nat)
    requires n <= |caps|
  {
    exists i :: 0 <= i < n && caps[i].id == id && Passes(caps[i], pol, s)
  }

  lemma {:induction false} FilteredIds(caps: Table, pol: Policy, s: Stage, n: nat, id: nat)
    requires n <= |caps|
    ensures id in Filtered(caps, pol, s, n) <==> PassesBelow(caps, pol, s, n, id)
  {
    if n > 0 {
      FilteredIds(caps, pol, s, n - 1, id);
      if PassesBelow(caps, pol, s, n, id) {
        var i :| 0 <= i < n && caps[i].id == id && Passes(caps[i], pol, s);
        if i < n - 1 {
          assert PassesBelow(caps, pol, s, n - 1, id);
        }
      } else {
        assert !PassesBelow(caps, pol, s, n - 1, id);
      }
    }
  }

  ghost predicate Ordered(caps: Table, ids: seq<nat>) {
    forall x, y :: 0 <= x < y < |ids| ==> Order(caps, ids[x]) < Order(caps, ids[y])
  }

  lemma FilteredBelow(caps: Table, pol: Policy, s: Stage, n: nat, x: nat)
    requires n <= |caps| && DistinctIds(caps) && x < |Filtered(caps, pol, s, n)|
    ensures 0 <= Order(caps, Filtered(caps, pol, s, n)[x]) < n
  {
    var id := Filtered(caps, pol, s, n)[x];
    FilteredIds(caps, pol, s, n, id);
    var i :| 0 <= i < n && caps[i].id == id && Passes(caps[i], pol, s);
    PositionOf(caps, |caps|, i);
  }

  lemma {:induction false} FilteredOrdered(caps: Table, pol: Policy, s: Stage, n: nat)
    requires n <= |caps| && DistinctIds(caps)
    ensures Ordered(caps, Filtered(caps, pol, s, n))
  {
    if n > 0 {
      var ids := Filtered(caps, pol, s, n);
      FilteredOrdered(caps, pol, s, n - 1);
      PositionOf(caps, |caps|, n - 1);
      forall x, y | 0 <= x < y < |ids| ensures Order(caps, ids[x]) < Order(caps, ids[y]) {
        if y == |Filtered(caps, pol, s, n - 1)| {
          FilteredBelow(caps, pol, s, n - 1, x);
        }
      }
    }
  }

  /** The candidates of a stage come without repetition, None first and then in table order. */
  lemma CandidatesOrdered(caps: Table, pref: Preference, pol: Policy, s: Stage)
    requires pref.Valid() && DistinctIds(caps)
    ensures Ordered(caps, Candidates(caps, pref, pol, s))
  {
    var ids := Filtered(caps, pol, s, |caps|);
    FilteredOrdered(caps, pol, s, |caps|);
    forall x | 0 <= x < |ids| ensures 0 <= Order(caps, ids[x]) {
      FilteredBelow(caps, pol, s, |caps|, x);
    }
  }

  /** Distinct numbers from 1 to m are at most m many. */
  lemma {:induction false} Pigeonhole(xs: seq<nat>, m: nat)
    requires NoRepeats(xs) && forall x <- xs :: 1 <= x <= m
    ensures |xs| <= m
    decreases m
  {
    if m in xs {
      var i :| 0 <= i < |xs| && xs[i] == m;
      var rest := xs[..i] + xs[i + 1..];
      forall x | x in rest ensures 1 <= x <= m - 1 {
        var j :| 0 <= j < |rest| && rest[j] == x;
        var k := if j < i then j else j + 1;
        assert x == xs[k] && xs[k] in xs;
      }
      Pigeonhole(rest, m - 1);
    } else if xs != [] {
      assert xs[0] in xs;
      Pigeonhole(xs, m - 1);
    }
  }

  /** With distinct ids in range, no prefix of the filter loop yields more than eleven entries. */
  lemma FilteredFits(caps: Table, pol: Policy, s: Stage, n: nat)
    requires n <= |caps| && DistinctIds(caps) && IdsInRange(caps)
    ensures |Filtered(caps, pol, s, n)| <= BACKEND_COUNT - 1
  {
    var ids := Filtered(caps, pol, s, n);
    FilteredOrdered(caps, pol, s, n);
    forall x, y | 0 <= x < y < |ids| ensures ids[x] != ids[y] {
      assert Order(caps, ids[x]) < Order(caps, ids[y]);
    }
    forall id | id in ids ensures 1 <= id <= BACKEND_COUNT - 1 {
      FilteredIds(caps, pol, s, n, id);
      var i :| 0 <= i < n && caps[i].id == id && Passes(caps[i], pol, s);
      assert caps[i] in caps;
    }
    Pigeonhole(ids, BACKEND_COUNT - 1);
  }

  /** The filter lets all of the first n entries through exactly if it yields n ids. */
  lemma {:induction false} FilteredFull(caps: Table, pol: Policy, s: Stage, n: nat)
    requires n <= |caps|
    ensures |Filtered(caps, pol, s, n)| == n <==> forall i :: 0 <= i < n ==> Passes(caps[i], pol, s)
  {
    if n > 0 {
      FilteredFull(caps, pol, s, n - 1);
    }
  }

  lemma {:induction false} FilteredGrows(caps: Table, pol: Policy, s: Stage, n: nat, m: nat)
    requires n <= m <= |caps|
    ensures |Filtered(caps, pol, s, n)| <= |Filtered(caps, pol, s, m)|
    decreases m
  {
    if n < m {
      FilteredGrows(caps, pol, s, n, m - 1);
    }
  }

  /** An automatic stage that every entry of a full table is admitted for. */
  predicate Overruns(caps: Table, pref: Preference, pol: Policy, s: Stage)
    requires pref.Valid()
  {
    Automatic(pref, s) && |caps| == BACKEND_COUNT && forall i :: 0 <= i < |caps| ==> Passes(caps[i], pol, s)
  }

  /** The array of twelve is overrun if and only if the stage is automatic, the table is full, and the
      filter lets every entry of it through. */
  lemma OverrunIff(caps: Table, pref: Preference, pol: Policy, s: Stage)
    requires pref.Valid()
    ensures |Candidates(caps, pref, pol, s)| > BACKEND_COUNT <==> Overruns(caps, pref, pol, s)
  {
    FilteredFull(caps, pol, s, |caps|);
  }

  /** Short of that, no prefix of the filter loop fills the array beyond its end. */
  lemma FilterLoopFits(caps: Table, pref: Preference, pol: Policy, s: Stage, n: nat)
    requires pref.Valid() && Automatic(pref, s) && !Overruns(caps, pref, pol, s) && n <= |caps|
    ensures 1 + |Filtered(caps, pol, s, n)| <= BACKEND_COUNT
  {
    FilteredGrows(caps, pol, s, n, |caps|);
    FilteredFull(caps, pol, s, |caps|);
  }

  /** Tables with distinct ids in range are never overrun, by a pigeonhole argument. */
  lemma CandidatesFit(caps: Table, pref: Preference, pol: Policy, s: Stage)
    requires pref.Valid() && DistinctIds(caps) && IdsInRange(caps)
    ensures |Candidates(caps, pref, pol, s)| <= BACKEND_COUNT && !Overruns(caps, pref, pol, s)
  {
    FilteredFits(caps, pol, s, |caps|);
    OverrunIff(caps, pref, pol, s);
  }

  const OPEN_NATIVE: BackendCaps := BackendCaps(1, 0, GENERIC, true, false, true, 20, 5, 1, STAGE_COUNT, GENERIC)

  /** A full table of one backend repeated. */
  function Copies(): (t: Table)
    ensures |t| == BACKEND_COUNT && forall i :: 0 <= i < |t| ==> t[i] == OPEN_NATIVE
  {
    seq(BACKEND_COUNT, i => OPEN_NATIVE)
  }

  /** Such a table overruns the array for every preference that leaves its stage automatic and pins no
      vendor. */
  lemma RepeatedIdsOverflow(pref: Preference)
    requires pref.Valid() && Automatic(pref, 0) && pref.vendorPin == GENERIC
    ensures |Candidates(Copies(), pref, Derive(pref), 0)| == 13
  {
    OverrunIff(Copies(), pref, Derive(pref), 0);
  }

  // ----- Narrower policies

  /** Lets nothing through that pol would not. */
  predicate Stricter(narrow: Policy, pol: Policy) {
    && (pol.excludeProprietary ==> narrow.excludeProprietary)
    && (pol.requireDeterministic ==> narrow.requireDeterministic)
    && (pol.vendorPin != GENERIC ==> narrow.vendorPin == pol.vendorPin)
  }

  predicate NoNative(caps: Table) {
    forall i :: 0 <= i < |caps| ==> caps[i].family != GENERIC
  }

  /** Scores as pol does on this table, and lets nothing through that pol would not. */
  predicate Narrower(caps: Table, narrow: Policy, pol: Policy) {
    && narrow.qualityWeight == pol.qualityWeight && narrow.costWeight == pol.costWeight
    && (narrow.preferNative == pol.preferNative || NoNative(caps))
    && Stricter(narrow, pol)
  }

  /** The ways the intent is narrowed: only open source, a vendor pin where there was none, reproducible
      backends only, and debug mode exactly if it was on already or no backend is vendor-neutral. */
  lemma NarrowerIntents(caps: Table, pref: Preference, vendor: nat)
    ensures Narrower(caps, Derive(pref.(openSourceOnly := true)), Derive(pref))
    ensures pref.vendorPin == GENERIC ==> Narrower(caps, Derive(pref.(vendorPin := vendor)), Derive(pref))
    ensures Narrower(caps, Derive(pref.(deterministic := true)), Derive(pref))
    ensures Narrower(caps, Derive(pref.(debug := true)), Derive(pref)) <==> pref.debug || NoNative(caps)
  {
  }

  /** Candidates under a narrower policy are candidates under the wider one. */
  lemma CandidatesShrink(caps: Table, pref: Preference, narrowPref: Preference, s: Stage, id: nat)
    requires SameStages(pref, narrowPref) && Stricter(Derive(narrowPref), Derive(pref))
    requires id in Candidates(caps, narrowPref, Derive(narrowPref), s)
    ensures id in Candidates(caps, pref, Derive(pref), s)
  {
    if Automatic(pref, s) && id != NONE {
      FilteredIds(caps, Derive(narrowPref), s, |caps|, id);
      var i :| 0 <= i < |caps| && caps[i].id == id && Passes(caps[i], Derive(narrowPref), s);
      assert PassesBelow(caps, Derive(pref), s, |caps|, id);
      FilteredIds(caps, Derive(pref), s, |caps|, id);
    }
  }

  /** The same stages enabled and overridden. */
  predicate SameStages(pref: Preference, narrowPref: Preference) {
    pref.Valid() && narrowPref.stagesEnabled == pref.stagesEnabled && narrowPref.overrides == pref.overrides
  }

  // ----- The winner, in terms of backends

  ghost predicate CanWin(sp: Space, p: Pick) {
    FromCandidates(sp, p) && ComboValid(sp.caps, p) && Total(sp.caps, p, sp.pol) > INT_MIN
  }

  /** Lexicographically before, in candidate order. */
  predicate PickBefore(caps: Table, q: Pick, p: Pick) {
    || Order(caps, q[0]) < Order(caps, p[0])
    || (q[0] == p[0] && Order(caps, q[1]) < Order(caps, p[1]))
    || (q[0] == p[0] && q[1] == p[1] && Order(caps, q[2]) < Order(caps, p[2]))
  }

  ghost predicate PickWins(sp: Space, p: Pick) {
    && CanWin(sp, p)
    && (forall q: Pick :: CanWin(sp, q) ==> Total(sp.caps, q, sp.pol) <= Total(sp.caps, p, sp.pol))
    && (forall q: Pick :: CanWin(sp, q) && PickBefore(sp.caps, q, p) ==>
          Total(sp.caps, q, sp.pol) < Total(sp.caps, p, sp.pol))
  }

  ghost predicate SpaceOrdered(sp: Space) {
    Ordered(sp.caps, sp.c0) && Ordered(sp.caps, sp.c1) && Ordered(sp.caps, sp.c2)
  }

  lemma WinnerWins(sp: Space, x: Ix)
    requires SpaceOrdered(sp) && Wins(sp, x)
    ensures PickWins(sp, sp.At(x))
  {
    forall q: Pick | CanWin(sp, q)
      ensures Total(sp.caps, q, sp.pol) <= Total(sp.caps, sp.At(x), sp.pol)
      ensures PickBefore(sp.caps, q, sp.At(x)) ==> Total(sp.caps, q, sp.pol) < Total(sp.caps, sp.At(x), sp.pol)
    {
      var y := PickHasPosition(sp, q);
      assert sp.Eligible(y) && ScoreOf(sp, y) == Total(sp.caps, q, sp.pol);
    }
  }

  lemma SpaceIsOrdered(caps: Table, pref: Preference)
    requires pref.Valid() && DistinctIds(caps)
    ensures SpaceOrdered(SpaceOf(caps, pref))
  {
    CandidatesOrdered(caps, pref, Derive(pref), 0);
    CandidatesOrdered(caps, pref, Derive(pref), 1);
    CandidatesOrdered(caps, pref, Derive(pref), 2);
  }

  /** The resolver's answer as a statement about backends: it satisfies the constraints, no other
      combination of candidates that does scores higher, and among those that score as high it is the
      first in candidate order. */
  lemma ResolvedBackendsWin(caps: Table, pref: Preference)
    requires pref.Valid() && DistinctIds(caps) && Resolve(caps, pref).Selected?
    ensures PickWins(SpaceOf(caps, pref), Resolve(caps, pref).backend)
  {
    var x := ResolveIsFirstMaximum(caps, pref);
    SpaceIsOrdered(caps, pref);
    WinnerWins(SpaceOf(caps, pref), x);
  }

  lemma NoneEligibleIff(sp: Space)
    ensures NoneEligible(sp) <==> forall p: Pick :: !CanWin(sp, p)
  {
    if NoneEligible(sp) {
      forall p: Pick ensures !CanWin(sp, p) {
        if CanWin(sp, p) {
          var x := PickHasPosition(sp, p);
        }
      }
    } else {
      var x :| sp.Has(x) && sp.Eligible(x);
      assert CanWin(sp, sp.At(x));
    }
  }

  lemma NoneCanWin(caps: Table, pref: Preference)
    requires pref.Valid()
    ensures Resolve(caps, pref).NoValidSelection? <==> forall p: Pick :: !CanWin(SpaceOf(caps, pref), p)
  {
    hide CanWin, SpaceOf, NoneEligible;
    var w := ResolveIsFirstMaximum(caps, pref);
    NoneEligibleIff(SpaceOf(caps, pref));
  }

  lemma UniqueWinner(sp: Space, p: Pick, q: Pick)
    requires SpaceOrdered(sp) && PickWins(sp, p) && PickWins(sp, q)
    ensures p == q
  {
    var x := PickHasPosition(sp, p);
    var y := PickHasPosition(sp, q);
    LexTotal(x, y);
  }

  // ----- Narrowing

  lemma SameScore(caps: Table, s: Stage, id: nat, narrow: Policy, pol: Policy)
    requires Narrower(caps, narrow, pol)
    ensures StageScore(caps, s, id, narrow) == StageScore(caps, s, id, pol)
  {
    FindCapsIn(caps, s, id);
  }

  lemma SameTotal(caps: Table, narrow: Policy, pol: Policy, p: Pick)
    requires Narrower(caps, narrow, pol)
    ensures Total(caps, p, narrow) == Total(caps, p, pol)
  {
    hide StageScore;
    SameScore(caps, 0, p[0], narrow, pol);
    SameScore(caps, 1, p[1], narrow, pol);
    SameScore(caps, 2, p[2], narrow, pol);
  }

  lemma StillCanWin(caps: Table, pref: Preference, narrowPref: Preference, p: Pick)
    requires SameStages(pref, narrowPref) && Narrower(caps, Derive(narrowPref), Derive(pref))
    requires CanWin(SpaceOf(caps, narrowPref), p)
    ensures CanWin(SpaceOf(caps, pref), p)
  {
    CandidatesShrink(caps, pref, narrowPref, 0, p[0]);
    CandidatesShrink(caps, pref, narrowPref, 1, p[1]);
    CandidatesShrink(caps, pref, narrowPref, 2, p[2]);
    SameTotal(caps, Derive(narrowPref), Derive(pref), p);
  }

  /** Narrowing the intent never raises the best score, and never turns no selection into one. */
  lemma NarrowingNeverRaises(caps: Table, pref: Preference, narrowPref: Preference)
    requires SameStages(pref, narrowPref) && Narrower(caps, Derive(narrowPref), Derive(pref)) && DistinctIds(caps)
    ensures Resolve(caps, narrowPref).Selected? ==> Resolve(caps, pref).Selected?
    ensures Resolve(caps, narrowPref).Selected? ==>
      Total(caps, Resolve(caps, narrowPref).backend, Derive(narrowPref)) <=
      Total(caps, Resolve(caps, pref).backend, Derive(pref))
  {
    hide Resolve, SpaceOf, CanWin;
    ResolveAnswers(caps, pref);
    if Resolve(caps, narrowPref).Selected? {
      var n := Resolve(caps, narrowPref).backend;
      ResolvedBackendsWin(caps, narrowPref);
      StillCanWin(caps, pref, narrowPref, n);
      NoneCanWin(caps, pref);
      ResolvedBackendsWin(caps, pref);
      SpaceFields(caps, pref);
      SameTotal(caps, Derive(narrowPref), Derive(pref), n);
    }
  }

  lemma SpaceFields(caps: Table, pref: Preference)
    requires pref.Valid()
    ensures SpaceOf(caps, pref).caps == caps && SpaceOf(caps, pref).pol == Derive(pref)
  {
  }

  lemma ResolveAnswers(caps: Table, pref: Preference)
    requires pref.Valid()
    ensures Resolve(caps, pref).Selected? || Resolve(caps, pref).NoValidSelection?
  {
  }

  /** The wider answer's choices are still candidates under the narrower intent. */
  ghost predicate Survives(caps: Table, pref: Preference, narrowPref: Preference, p: Pick)
    requires SameStages(pref, narrowPref)
  {
    forall s: Stage :: Automatic(pref, s) ==> p[s] in Candidates(caps, narrowPref, Derive(narrowPref), s)
  }

  lemma SurvivorCanWin(caps: Table, pref: Preference, narrowPref: Preference, p: Pick)
    requires SameStages(pref, narrowPref) && Narrower(caps, Derive(narrowPref), Derive(pref))
    requires CanWin(SpaceOf(caps, pref), p) && Survives(caps, pref, narrowPref, p)
    ensures CanWin(SpaceOf(caps, narrowPref), p)
  {
    forall s: Stage ensures p[s] in Candidates(caps, narrowPref, Derive(narrowPref), s) {
      assert Automatic(pref, s) ||
        Candidates(caps, narrowPref, Derive(narrowPref), s) == Candidates(caps, pref, Derive(pref), s);
    }
    SameTotal(caps, Derive(narrowPref), Derive(pref), p);
  }

  /** A winner that is still among fewer candidates still wins there. */
  lemma WinnerStays(caps: Table, pref: Preference, narrowPref: Preference, p: Pick)
    requires SameStages(pref, narrowPref) && Narrower(caps, Derive(narrowPref), Derive(pref))
    requires PickWins(SpaceOf(caps, pref), p) && CanWin(SpaceOf(caps, narrowPref), p)
    ensures PickWins(SpaceOf(caps, narrowPref), p)
  {
    hide CanWin, SpaceOf;
    SpaceFields(caps, pref);
    SpaceFields(caps, narrowPref);
    SameTotal(caps, Derive(narrowPref), Derive(pref), p);
    forall q: Pick | CanWin(SpaceOf(caps, narrowPref), q)
      ensures CanWin(SpaceOf(caps, pref), q) && Total(caps, q, Derive(narrowPref)) == Total(caps, q, Derive(pref))
    {
      StillCanWin(caps, pref, narrowPref, q);
      SameTotal(caps, Derive(narrowPref), Derive(pref), q);
    }
  }

  /** If all automatic choices of the wider answer survive the narrower filter, the resolved backends
      are the same ones, tie-breaking included. */
  lemma NarrowingKeepsSurvivors(caps: Table, pref: Preference, narrowPref: Preference)
    requires SameStages(pref, narrowPref) && Narrower(caps, Derive(narrowPref), Derive(pref)) && DistinctIds(caps)
    requires Resolve(caps, pref).Selected? && Survives(caps, pref, narrowPref, Resolve(caps, pref).backend)
    ensures Resolve(caps, narrowPref).Selected? && Resolve(caps, narrowPref).backend == Resolve(caps, pref).backend
  {
    hide Resolve, SpaceOf, CanWin, Survives;
    var p := Resolve(caps, pref).backend;
    ResolvedBackendsWin(caps, pref);
    SurvivorCanWin(caps, pref, narrowPref, p);
    WinnerStays(caps, pref, narrowPref, p);
    ResolveAnswers(caps, narrowPref);
    NoneCanWin(caps, narrowPref);
    ResolvedBackendsWin(caps, narrowPref);
    SpaceIsOrdered(caps, narrowPref);
    UniqueWinner(SpaceOf(caps, narrowPref), p, Resolve(caps, narrowPref).backend);
  }

  // ----- What the intent is for

  /** How much better a scores than b. */
  function Advantage(a: BackendCaps, b: BackendCaps, pref: Preference): int {
    EntryScore(a, Derive(pref)) - EntryScore(b, Derive(pref))
  }

  /** a is at least as good as b and costs at least as much. */
  predicate Dearer(a: BackendCaps, b: BackendCaps) {
    b.qualityTier <= a.qualityTier < 0x8000_0000 && b.costHint <= a.costHint < 0x8000_0000
  }

  /** The more the intent asks for quality, the more it favours the better and dearer of two backends. */
  lemma QualityFavoursTheBetter(a: BackendCaps, b: BackendCaps, pref: Preference)
    requires Dearer(a, b)
    ensures Advantage(a, b, pref.(quality := Perf)) <= Advantage(a, b, pref.(quality := Balanced))
    ensures Advantage(a, b, pref.(quality := Balanced)) <= Advantage(a, b, pref.(quality := QualityFirst))
  {
    var cw := Derive(pref.(quality := Balanced)).costWeight;
    MorePerUnit(cw, a.costHint);
    MorePerUnit(cw, b.costHint);
  }

  lemma MorePerUnit(w: int, x: int)
    ensures (w + 1) * x == w * x + x && (w + 2) * x == w * x + 2 * x
  {
  }

  /** Asking for low latency favours the cheaper one. */
  lemma LatencyFavoursTheCheaper(a: BackendCaps, b: BackendCaps, pref: Preference)
    requires Dearer(a, b)
    ensures Advantage(a, b, pref.(prioritizeLatency := true)) <= Advantage(a, b, pref.(prioritizeLatency := false))
  {
    var w := Derive(pref.(prioritizeLatency := false)).costWeight;
    MorePerUnit(w, a.costHint);
    MorePerUnit(w, b.costHint);
  }

  /** So does asking for low power. */
  lemma SavingFavoursTheCheaper(a: BackendCaps, b: BackendCaps, pref: Preference)
    requires Dearer(a, b)
    ensures Advantage(a, b, pref.(powerSaver := true)) <= Advantage(a, b, pref.(powerSaver := false))
  {
    var w := Derive(pref.(powerSaver := false)).costWeight;
    MorePerUnit(w, a.costHint);
    MorePerUnit(w, b.costHint);
  }

  /** Debug mode favours vendor-neutral backends, and admits only reproducible ones. */
  lemma DebugFavoursNative(a: BackendCaps, b: BackendCaps, pref: Preference, s: Stage)
    requires a.family == GENERIC && b.family != GENERIC
    ensures Advantage(a, b, pref.(debug := true)) == Advantage(a, b, pref.(debug := false)) + 200
    ensures Passes(a, Derive(pref.(debug := true)), s) ==> a.deterministic
  {
  }
}
