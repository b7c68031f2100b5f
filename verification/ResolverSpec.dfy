/** The resolver's answer in terms of the preference and the table's fields alone: which entry may be
    chosen for a stage, which choices go together, what they score, and which of them wins. */
module ResolverSpec {
  import opened Bytes
  import opened Resolver
  import opened ResolverOptimal
  import opened ResolverIntent
  import opened ResolverMaximal

  // ----- The reference

  /** Bit s of the mask is set. */
  predicate On(pref: Preference, s: Stage) {
    if s == 0 then pref.stagesEnabled % 2 >= 1 else if s == 1 then pref.stagesEnabled % 4 >= 2
    else pref.stagesEnabled % 8 >= 4
  }

  predicate IsEntry(caps: Table, s: Stage, id: nat, e: BackendCaps) {
    e in caps && e.stage == s && e.id == id
  }

  /** What the preference lets an automatic stage use. */
  predicate Admitted(e: BackendCaps, pref: Preference) {
    && e.supported
    && (e.proprietary ==> pref.allowProprietary && !pref.openSourceOnly)
    && (pref.deterministic || pref.debug ==> e.deterministic)
    && (pref.vendorPin != GENERIC ==> e.family == pref.vendorPin)
  }

  /** What may be chosen for a stage: nothing where it is off, the override where there is one and it is
      supported, otherwise nothing or any admitted entry. */
  ghost predicate Offered(caps: Table, pref: Preference, s: Stage, id: nat)
    requires pref.Valid()
  {
    if !On(pref, s) then id == NONE
    else if pref.overrides[s] != BACKEND_COUNT then
      id == pref.overrides[s] && (id == NONE || exists e :: IsEntry(caps, s, id, e) && e.supported)
    else id == NONE || exists e :: IsEntry(caps, s, id, e) && Admitted(e, pref)
  }

  /** The chosen entry's demand on another stage: a real backend there, of the family it names. */
  ghost predicate DemandMet(caps: Table, p: Pick, e: BackendCaps) {
    e.requiresFamilyStage < STAGE_COUNT ==>
      p[e.requiresFamilyStage] != NONE &&
      exists f :: IsEntry(caps, e.requiresFamilyStage, p[e.requiresFamilyStage], f) && f.family == e.requiresFamily
  }

  ghost predicate Placed(caps: Table, p: Pick, s: Stage) {
    p[s] != NONE ==> exists e :: IsEntry(caps, s, p[s], e) && DemandMet(caps, p, e)
  }

  ghost predicate GoTogether(caps: Table, p: Pick) {
    Placed(caps, p, 0) && Placed(caps, p, 1) && Placed(caps, p, 2)
  }

  /** A thousand, plus the quality tier, twice if quality comes first, minus the cost for each of the
      things that make it count, plus 200 for a vendor-neutral backend in debug mode. */
  function Worth(e: BackendCaps, pref: Preference): int {
    var tier, cost := AsInt(e.qualityTier), AsInt(e.costHint);
    1000 + tier + (if pref.quality == QualityFirst then tier else 0)
      - cost - (if pref.quality == Perf then cost else 0)
      - (if pref.prioritizeLatency then cost else 0) - (if pref.powerSaver then 2 * cost else 0)
      + if pref.debug && e.family == GENERIC then 200 else 0
  }

  /** What the choice for one stage scores. */
  ghost predicate Scores(caps: Table, pref: Preference, s: Stage, id: nat, w: int) {
    if id == NONE then w == 0 else exists e :: IsEntry(caps, s, id, e) && w == Worth(e, pref)
  }

  ghost predicate TotalScores(caps: Table, pref: Preference, p: Pick, total: int) {
    exists a, b, c ::
      && Scores(caps, pref, 0, p[0], a) && Scores(caps, pref, 1, p[1], b) && Scores(caps, pref, 2, p[2], c)
      && total == a + b + c
  }

  /** A choice the resolver may answer with. */
  ghost predicate Possible(caps: Table, pref: Preference, p: Pick, total: int)
    requires pref.Valid()
  {
    && Offered(caps, pref, 0, p[0]) && Offered(caps, pref, 1, p[1]) && Offered(caps, pref, 2, p[2])
    && GoTogether(caps, p) && TotalScores(caps, pref, p, total) && total > -0x8000_0000
  }

  /** Listed before: nothing before everything, then in table order. */
  ghost predicate Before(caps: Table, a: nat, b: nat) {
    b != NONE && (a == NONE || exists i, j :: 0 <= i < j < |caps| && caps[i].id == a && caps[j].id == b)
  }

  ghost predicate PickedBefore(caps: Table, q: Pick, p: Pick) {
    || Before(caps, q[0], p[0])
    || (q[0] == p[0] && Before(caps, q[1], p[1]))
    || (q[0] == p[0] && q[1] == p[1] && Before(caps, q[2], p[2]))
  }

  /** No possible choice scores higher, and none that is listed before scores as high. */
  ghost predicate Best(caps: Table, pref: Preference, p: Pick)
    requires pref.Valid()
  {
    exists total :: Possible(caps, pref, p, total) && Unbeaten(caps, pref, p, total)
  }

  ghost predicate Unbeaten(caps: Table, pref: Preference, p: Pick, total: int)
    requires pref.Valid()
  {
    forall q: Pick, other: int :: Possible(caps, pref, q, other) ==>
      other <= total && (PickedBefore(caps, q, p) ==> other < total)
  }

  // ----- Choices

  lemma BitIs(pref: Preference, s: Stage)
    ensures Enabled(pref, s) <==> On(pref, s)
  {
    hide Enabled;
    BitAt(pref, s);
    HighBit(pref.stagesEnabled, 2);
    HighBit(pref.stagesEnabled, 4);
  }

  lemma BitAt(pref: Preference, s: Stage)
    ensures s == 0 ==> (Enabled(pref, s) <==> pref.stagesEnabled / 1 % 2 == 1)
    ensures s == 1 ==> (Enabled(pref, s) <==> pref.stagesEnabled / 2 % 2 == 1)
    ensures s == 2 ==> (Enabled(pref, s) <==> pref.stagesEnabled / 4 % 2 == 1)
  {
  }

  /** The bit worth w is set exactly if the rest modulo 2 w reaches w. */
  lemma HighBit(m: nat, w: nat)
    requires w == 2 || w == 4
    ensures m / w % 2 == 1 <==> m % (2 * w) >= w
  {
    var q, r := m / (2 * w), m % (2 * w);
    assert m == 2 * w * q + r;
    if r >= w {
      Odd(m, w, q, r - w);
    } else {
      Even(m, w, q, r);
    }
  }

  lemma Odd(m: nat, w: nat, q: nat, r: nat)
    requires r < w && m == 2 * w * q + w + r
    ensures m / w % 2 == 1
  {
    assert w * (2 * q + 1) == 2 * w * q + w;
    UniqueRemainder(m, w, 2 * q + 1, r);
  }

  lemma Even(m: nat, w: nat, q: nat, r: nat)
    requires r < w && m == 2 * w * q + r
    ensures m / w % 2 == 0
  {
    assert w * (2 * q) == 2 * w * q;
    UniqueRemainder(m, w, 2 * q, r);
  }

  lemma AdmittedIs(e: BackendCaps, pref: Preference, s: Stage)
    ensures Passes(e, Derive(pref), s) <==> e.stage == s && e.id != NONE && Admitted(e, pref)
  {
  }

  /** What an automatic stage may be given, for any table: an id other than None is a candidate if and
      only if some entry of the stage with that id is admitted. */
  lemma CandidateIff(caps: Table, pref: Preference, s: Stage, id: nat)
    requires pref.Valid() && On(pref, s) && pref.overrides[s] == BACKEND_COUNT && id != NONE
    ensures id in Candidates(caps, pref, Derive(pref), s) <==>
      exists e :: IsEntry(caps, s, id, e) && Admitted(e, pref)
  {
    hide Passes, Admitted, Derive, On;
    BitIs(pref, s);
    FilteredIds(caps, Derive(pref), s, |caps|, id);
    if PassesBelow(caps, Derive(pref), s, |caps|, id) {
      var i :| 0 <= i < |caps| && caps[i].id == id && Passes(caps[i], Derive(pref), s);
      AdmittedIs(caps[i], pref, s);
      assert IsEntry(caps, s, id, caps[i]);
    }
    if e :| IsEntry(caps, s, id, e) && Admitted(e, pref) {
      var i :| 0 <= i < |caps| && caps[i] == e;
      AdmittedIs(caps[i], pref, s);
    }
  }

  /** With distinct ids an entry is found under its stage and id. */
  lemma Found(caps: Table, s: Stage, id: nat, e: BackendCaps)
    requires DistinctIds(caps) && IsEntry(caps, s, id, e)
    ensures FindCaps(caps, s, id) == Some(e)
  {
    var i :| 0 <= i < |caps| && caps[i] == e;
    FoundAt(caps, i);
  }

  lemma OverrideIff(caps: Table, s: Stage, id: nat)
    requires DistinctIds(caps)
    ensures (FindCaps(caps, s, id).Some? && FindCaps(caps, s, id).value.supported) <==>
      exists e :: IsEntry(caps, s, id, e) && e.supported
  {
    FindCapsIn(caps, s, id);
    if e :| IsEntry(caps, s, id, e) && e.supported {
      Found(caps, s, id, e);
    }
  }

  lemma OfferedIff(caps: Table, pref: Preference, s: Stage, id: nat)
    requires pref.Valid() && DistinctIds(caps)
    ensures id in Candidates(caps, pref, Derive(pref), s) <==> Offered(caps, pref, s, id)
  {
    hide Admitted, IsEntry, Derive, On;
    BitIs(pref, s);
    if On(pref, s) && pref.overrides[s] == BACKEND_COUNT && id != NONE {
      CandidateIff(caps, pref, s, id);
    } else if On(pref, s) && pref.overrides[s] != BACKEND_COUNT {
      OverrideIff(caps, s, pref.overrides[s]);
    }
  }

  // ----- Constraints

  lemma DemandIff(caps: Table, p: Pick, s: Stage)
    requires DistinctIds(caps)
    ensures StageOk(caps, p, s) <==> Placed(caps, p, s)
  {
    FindCapsIn(caps, s, p[s]);
    if p[s] != NONE {
      match FindCaps(caps, s, p[s])
      case None =>
      case Some(b) =>
        assert IsEntry(caps, s, p[s], b);
        OnlyEntry(caps, s, p[s], b);
        FamilyIff(caps, p, b);
    }
  }

  lemma OnlyEntry(caps: Table, s: Stage, id: nat, b: BackendCaps)
    requires DistinctIds(caps) && IsEntry(caps, s, id, b)
    ensures forall e :: IsEntry(caps, s, id, e) ==> e == b
  {
    Found(caps, s, id, b);
    forall e | IsEntry(caps, s, id, e) ensures e == b {
      Found(caps, s, id, e);
    }
  }

  lemma FamilyIff(caps: Table, p: Pick, b: BackendCaps)
    requires DistinctIds(caps) && b in caps
    ensures DemandMet(caps, p, b) <==>
      (b.requiresFamilyStage >= STAGE_COUNT ||
       (p[b.requiresFamilyStage] != NONE &&
        match FindCaps(caps, b.requiresFamilyStage, p[b.requiresFamilyStage])
        case None => false
        case Some(rb) => rb.family == b.requiresFamily))
  {
    if b.requiresFamilyStage < STAGE_COUNT {
      var s: Stage := b.requiresFamilyStage;
      FindCapsIn(caps, s, p[s]);
      match FindCaps(caps, s, p[s])
      case None =>
      case Some(rb) =>
        assert IsEntry(caps, s, p[s], rb);
        OnlyEntry(caps, s, p[s], rb);
    }
  }

  lemma GoTogetherIff(caps: Table, p: Pick)
    requires DistinctIds(caps)
    ensures ComboValid(caps, p) <==> GoTogether(caps, p)
  {
    hide StageOk, Placed;
    DemandIff(caps, p, 0);
    DemandIff(caps, p, 1);
    DemandIff(caps, p, 2);
  }

  // ----- Scores

  lemma WorthIs(e: BackendCaps, pref: Preference)
    ensures EntryScore(e, Derive(pref)) == Worth(e, pref)
  {
    hide AsInt;
    Multiples(AsInt(e.qualityTier));
    Multiples(AsInt(e.costHint));
  }

  lemma Multiples(x: int)
    ensures 1 * x == x && 2 * x == x + x && 3 * x == x + x + x && 4 * x == x + x + x + x
    ensures 5 * x == x + x + x + x + x
  {
  }

  lemma ScoresIff(caps: Table, pref: Preference, s: Stage, id: nat, w: int)
    requires DistinctIds(caps) && (id == NONE || FindCaps(caps, s, id).Some?)
    ensures Scores(caps, pref, s, id, w) <==> w == StageScore(caps, s, id, Derive(pref))
  {
    hide Worth, EntryScore, Derive;
    if id != NONE {
      FindCapsIn(caps, s, id);
      var b := FindCaps(caps, s, id).value;
      assert IsEntry(caps, s, id, b);
      OnlyEntry(caps, s, id, b);
      WorthIs(b, pref);
    }
  }

  lemma TotalIff(caps: Table, pref: Preference, p: Pick, total: int)
    requires DistinctIds(caps) && ComboValid(caps, p)
    ensures TotalScores(caps, pref, p, total) <==> total == Total(caps, p, Derive(pref))
  {
    hide StageScore, Scores, Derive;
    var a, b, c := StageScore(caps, 0, p[0], Derive(pref)), StageScore(caps, 1, p[1], Derive(pref)),
      StageScore(caps, 2, p[2], Derive(pref));
    ScoresIff(caps, pref, 0, p[0], a);
    ScoresIff(caps, pref, 1, p[1], b);
    ScoresIff(caps, pref, 2, p[2], c);
    if x, y, z :|
        (Scores(caps, pref, 0, p[0], x) && Scores(caps, pref, 1, p[1], y) && Scores(caps, pref, 2, p[2], z)
         && total == x + y + z) {
      ScoresIff(caps, pref, 0, p[0], x);
      ScoresIff(caps, pref, 1, p[1], y);
      ScoresIff(caps, pref, 2, p[2], z);
    }
  }

  lemma PossibleIff(caps: Table, pref: Preference, p: Pick, total: int)
    requires pref.Valid() && DistinctIds(caps)
    ensures Possible(caps, pref, p, total) <==>
      CanWin(SpaceOf(caps, pref), p) && total == Total(caps, p, Derive(pref))
  {
    hide Candidates, Offered, GoTogether, ComboValid, TotalScores, Total, Derive, DistinctIds;
    OfferedIff(caps, pref, 0, p[0]);
    OfferedIff(caps, pref, 1, p[1]);
    OfferedIff(caps, pref, 2, p[2]);
    GoTogetherIff(caps, p);
    if ComboValid(caps, p) {
      TotalIff(caps, pref, p, total);
    }
  }

  // ----- Order

  lemma BeforeIff(caps: Table, a: nat, b: nat, i: nat, j: nat)
    requires DistinctIds(caps)
    requires a == NONE || (i < |caps| && caps[i].id == a)
    requires b == NONE || (j < |caps| && caps[j].id == b)
    ensures Before(caps, a, b) <==> Order(caps, a) < Order(caps, b)
  {
    if a != NONE {
      PositionOf(caps, |caps|, i);
    }
    if b != NONE {
      PositionOf(caps, |caps|, j);
    }
  }

  lemma InTable(caps: Table, p: Pick, s: Stage) returns (i: nat)
    requires ComboValid(caps, p)
    ensures p[s] == NONE || (i < |caps| && caps[i].id == p[s])
  {
    i := 0;
    assert StageOk(caps, p, s) by { assert s == 0 || s == 1 || s == 2; }
    FindCapsIn(caps, s, p[s]);
    if p[s] != NONE {
      var b := FindCaps(caps, s, p[s]).value;
      i :| i < |caps| && caps[i] == b;
    }
  }

  lemma PickedBeforeIff(caps: Table, q: Pick, p: Pick)
    requires DistinctIds(caps) && ComboValid(caps, q) && ComboValid(caps, p)
    ensures PickedBefore(caps, q, p) <==> PickBefore(caps, q, p)
  {
    hide Before, Order, ComboValid;
    forall s: Stage ensures Before(caps, q[s], p[s]) <==> Order(caps, q[s]) < Order(caps, p[s]) {
      var i := InTable(caps, q, s);
      var j := InTable(caps, p, s);
      BeforeIff(caps, q[s], p[s], i, j);
    }
    assert Before(caps, q[0], p[0]) <==> Order(caps, q[0]) < Order(caps, p[0]);
    assert Before(caps, q[1], p[1]) <==> Order(caps, q[1]) < Order(caps, p[1]);
    assert Before(caps, q[2], p[2]) <==> Order(caps, q[2]) < Order(caps, p[2]);
  }

  // ----- The answer

  lemma UnbeatenIff(caps: Table, pref: Preference, p: Pick)
    requires pref.Valid() && DistinctIds(caps) && CanWin(SpaceOf(caps, pref), p)
    ensures Unbeaten(caps, pref, p, Total(caps, p, Derive(pref))) <==> PickWins(SpaceOf(caps, pref), p)
  {
    hide Possible, CanWin, PickedBefore, PickBefore, SpaceOf, Total, DistinctIds, ComboValid;
    SpaceFields(caps, pref);
    Valid(caps, pref, p);
    forall q: Pick | CanWin(SpaceOf(caps, pref), q)
      ensures Possible(caps, pref, q, Total(caps, q, Derive(pref)))
      ensures PickedBefore(caps, q, p) <==> PickBefore(caps, q, p)
    {
      PossibleIff(caps, pref, q, Total(caps, q, Derive(pref)));
      Valid(caps, pref, q);
      PickedBeforeIff(caps, q, p);
    }
    forall q: Pick, other: int | Possible(caps, pref, q, other)
      ensures CanWin(SpaceOf(caps, pref), q) && other == Total(caps, q, Derive(pref))
    {
      PossibleIff(caps, pref, q, other);
    }
  }

  lemma Valid(caps: Table, pref: Preference, p: Pick)
    requires pref.Valid() && CanWin(SpaceOf(caps, pref), p)
    ensures ComboValid(caps, p)
  {
  }

  lemma BestIff(caps: Table, pref: Preference, p: Pick)
    requires pref.Valid() && DistinctIds(caps)
    ensures Best(caps, pref, p) <==> PickWins(SpaceOf(caps, pref), p)
  {
    hide Possible, CanWin, SpaceOf, Total, Unbeaten, DistinctIds, Derive;
    var total := Total(caps, p, Derive(pref));
    PossibleIff(caps, pref, p, total);
    if CanWin(SpaceOf(caps, pref), p) {
      UnbeatenIff(caps, pref, p);
    }
    if other :| Possible(caps, pref, p, other) && Unbeaten(caps, pref, p, other) {
      PossibleIff(caps, pref, p, other);
    }
  }

  /** The resolver answers with p if and only if p is the best possible choice; there is no selection if
      and only if no choice is possible. */
  lemma ResolvesIff(caps: Table, pref: Preference, p: Pick)
    requires pref.Valid() && DistinctIds(caps)
    ensures Resolve(caps, pref).Selected? && Resolve(caps, pref).backend == p <==> Best(caps, pref, p)
    ensures Resolve(caps, pref).NoValidSelection? <==>
      forall q: Pick, total: int :: !Possible(caps, pref, q, total)
  {
    hide Resolve, Best, PickWins, CanWin, SpaceOf, Possible, DistinctIds, SpaceOrdered, Total, Derive;
    BestIff(caps, pref, p);
    NoneCanWin(caps, pref);
    ResolveAnswers(caps, pref);
    SpaceIsOrdered(caps, pref);
    WinsCan(caps, pref, p);
    if Resolve(caps, pref).Selected? {
      ResolvedBackendsWin(caps, pref);
      if PickWins(SpaceOf(caps, pref), p) {
        UniqueWinner(SpaceOf(caps, pref), p, Resolve(caps, pref).backend);
      }
    }
    PossibleExists(caps, pref);
  }

  lemma WinsCan(caps: Table, pref: Preference, p: Pick)
    requires pref.Valid()
    ensures PickWins(SpaceOf(caps, pref), p) ==> CanWin(SpaceOf(caps, pref), p)
  {
  }

  lemma PossibleExists(caps: Table, pref: Preference)
    requires pref.Valid() && DistinctIds(caps)
    ensures (forall q: Pick, total: int :: !Possible(caps, pref, q, total)) <==>
      forall q: Pick :: !CanWin(SpaceOf(caps, pref), q)
  {
    hide Possible, CanWin, SpaceOf, Total, DistinctIds, Derive;
    if q: Pick, total: int :| Possible(caps, pref, q, total) {
      PossibleIff(caps, pref, q, total);
    }
    if q: Pick :| CanWin(SpaceOf(caps, pref), q) {
      PossibleIff(caps, pref, q, Total(caps, q, Derive(pref)));
    }
  }

  /** The resolved backend of a stage that is off is None, that of an overridden stage is the override,
      which is supported, and an automatic choice is one of the entries the preference admits. */
  lemma SelectionHonoursIntent(caps: Table, pref: Preference, s: Stage)
    requires pref.Valid() && DistinctIds(caps) && Resolve(caps, pref).Selected?
    ensures var id := Resolve(caps, pref).backend[s];
      && (!On(pref, s) ==> id == NONE)
      && (On(pref, s) && pref.overrides[s] != BACKEND_COUNT ==>
            id == pref.overrides[s] && (id == NONE || exists e :: IsEntry(caps, s, id, e) && e.supported))
      && (On(pref, s) && pref.overrides[s] == BACKEND_COUNT ==>
            id == NONE || exists e :: IsEntry(caps, s, id, e) && Admitted(e, pref))
  {
    hide Resolve, CanWin, Candidates, IsEntry, Admitted, On, Derive;
    ResolvedBackendsWin(caps, pref);
    var p := Resolve(caps, pref).backend;
    WinsCan(caps, pref, p);
    InStage(caps, pref, p, s);
    OfferedIff(caps, pref, s, p[s]);
  }

  /** A frame input is asked for exactly if some chosen entry requires it. */
  lemma InputsIff(caps: Table, pref: Preference, bit: bv32)
    requires pref.Valid() && DistinctIds(caps) && Resolve(caps, pref).Selected?
    ensures Resolve(caps, pref).requiredInputs & bit != 0 <==>
      exists s: Stage, e :: Asks(caps, Resolve(caps, pref).backend, s, e, bit)
  {
    hide Resolve, InputsOf, Meets, Wants, Asks, DistinctIds;
    InputsAreUnion(caps, pref, bit);
    MeetsIs(Resolve(caps, pref).requiredInputs, bit);
    WantsIff(caps, Resolve(caps, pref).backend, bit);
  }

  lemma WantsIff(caps: Table, p: Pick, bit: bv32)
    requires DistinctIds(caps)
    ensures (exists s: Stage :: Wants(caps, p, s, bit)) <==> exists s: Stage, e :: Asks(caps, p, s, e, bit)
  {
    hide Wants, Asks, DistinctIds;
    if s: Stage :| Wants(caps, p, s, bit) {
      var e := WantsAsks(caps, p, s, bit);
    }
    if s: Stage, e :| Asks(caps, p, s, e, bit) {
      AsksWants(caps, p, s, e, bit);
    }
  }

  /** The entry chosen for stage s requires the input. */
  predicate Asks(caps: Table, p: Pick, s: Stage, e: BackendCaps, bit: bv32) {
    p[s] != NONE && IsEntry(caps, s, p[s], e) && e.requiredInputs & bit != 0
  }

  lemma MeetsIs(a: bv32, bit: bv32)
    ensures Meets(a, bit) <==> a & bit != 0
  {
  }

  lemma WantsAsks(caps: Table, p: Pick, s: Stage, bit: bv32) returns (e: BackendCaps)
    requires Wants(caps, p, s, bit)
    ensures Asks(caps, p, s, e, bit)
  {
    hide Meets;
    FindCapsIn(caps, s, p[s]);
    NoInputs(bit);
    if p[s] != NONE && FindCaps(caps, s, p[s]).Some? {
      e := FindCaps(caps, s, p[s]).value;
      MeetsIs(e.requiredInputs, bit);
    } else {
      assert false;
    }
  }

  lemma NoInputs(bit: bv32)
    ensures !Meets(0, bit)
  {
  }

  lemma AsksWants(caps: Table, p: Pick, s: Stage, e: BackendCaps, bit: bv32)
    requires DistinctIds(caps) && Asks(caps, p, s, e, bit)
    ensures Wants(caps, p, s, bit)
  {
    Found(caps, s, p[s], e);
  }
}
