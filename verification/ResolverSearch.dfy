/** rfx_resolve as it runs: candidate arrays filled by a loop, then three nested loops over them. */
module ResolverSearch {
  import opened Bytes
  import opened Resolver
  import opened ResolverIntent

  method FindEntry(caps: Table, s: Stage, id: nat) returns (r: Option<BackendCaps>)
    ensures r == FindCaps(caps, s, id)
  {
    var i := 0;
    while i < |caps|
      invariant 0 <= i <= |caps|
      invariant FindCaps(caps, s, id) == FindCaps(caps[i..], s, id)
    {
      if caps[i].stage == s && caps[i].id == id { return Some(caps[i]); }
      assert caps[i..][1..] == caps[i + 1..];
      i := i + 1;
    }
    return None;
  }

  /** candidates(): the number of entries written to the front of the array. */
  method FillCandidates(caps: Table, pref: Preference, pol: Policy, s: Stage, out: array<nat>) returns (n: nat)
    requires pref.Valid() && out.Length == BACKEND_COUNT && !Overruns(caps, pref, pol, s)
    modifies out
    ensures n <= out.Length && out[..n] == Candidates(caps, pref, pol, s)
  {
    if !Enabled(pref, s) {
      out[0] := NONE;
      return 1;
    }
    var ov := pref.overrides[s];
    if ov != BACKEND_COUNT {
      if ov == NONE {
        out[0] := NONE;
        return 1;
      }
      var b := FindEntry(caps, s, ov);
      if b.Some? && b.value.supported {
        out[0] := ov;
        return 1;
      }
      return 0;
    }
    out[0] := NONE;
    n := 1;
    var i := 0;
    while i < |caps|
      invariant 0 <= i <= |caps| && n == 1 + |Filtered(caps, pol, s, i)| <= BACKEND_COUNT
      invariant out[..n] == [NONE] + Filtered(caps, pol, s, i)
    {
      FilterLoopFits(caps, pref, pol, s, i + 1);
      if Passes(caps[i], pol, s) {
        out[n] := caps[i].id;
        n := n + 1;
      }
      i := i + 1;
    }
  }

  /** The triple loop, with the combinations looked at so far kept in `seen`. */
  method Search(sp: Space) returns (best: Option<Ix>)
    ensures best == sp.Best(AllPositions(sp))
  {
    hide Plane, Space.Best, Space.Holds;
    best := None;
    NothingSeen(sp);
    var i := 0;
    while i < |sp.c0|
      invariant 0 <= i <= |sp.c0|
      invariant sp.Holds(Cube(i, |sp.c1|, |sp.c2|)) && best == sp.Best(Cube(i, |sp.c1|, |sp.c2|))
    {
      best := SearchPlane(sp, i, best);
      i := i + 1;
    }
  }

  lemma NothingSeen(sp: Space)
    ensures sp.Holds([]) && sp.Best([]) == None
  {
  }

  method SearchPlane(sp: Space, i: nat, before: Option<Ix>) returns (best: Option<Ix>)
    requires i < |sp.c0|
    requires sp.Holds(Cube(i, |sp.c1|, |sp.c2|)) && before == sp.Best(Cube(i, |sp.c1|, |sp.c2|))
    ensures sp.Holds(Cube(i + 1, |sp.c1|, |sp.c2|)) && best == sp.Best(Cube(i + 1, |sp.c1|, |sp.c2|))
  {
    hide Space.Best, Space.Holds, Row;
    ghost var seen := Cube(i, |sp.c1|, |sp.c2|);
    best := before;
    var j := 0;
    assert seen + Plane(i, 0, |sp.c2|) == seen;
    while j < |sp.c1|
      invariant 0 <= j <= |sp.c1|
      invariant sp.Holds(seen + Plane(i, j, |sp.c2|)) && best == sp.Best(seen + Plane(i, j, |sp.c2|))
    {
      best := SearchRow(sp, i, j, seen + Plane(i, j, |sp.c2|), best);
      assert seen + Plane(i, j + 1, |sp.c2|) == (seen + Plane(i, j, |sp.c2|)) + Row(i, j, |sp.c2|);
      j := j + 1;
    }
  }

  method SearchRow(sp: Space, i: nat, j: nat, ghost seen: seq<Ix>, before: Option<Ix>) returns (best: Option<Ix>)
    requires i < |sp.c0| && j < |sp.c1| && sp.Holds(seen) && before == sp.Best(seen)
    ensures sp.Holds(seen + Row(i, j, |sp.c2|)) && best == sp.Best(seen + Row(i, j, |sp.c2|))
  {
    hide Space.Best;
    best := before;
    var k := 0;
    assert seen + Row(i, j, 0) == seen;
    while k < |sp.c2|
      invariant 0 <= k <= |sp.c2|
      invariant sp.Holds(seen + Row(i, j, k)) && best == sp.Best(seen + Row(i, j, k))
    {
      best := Consider(sp, Ix(i, j, k), seen + Row(i, j, k), best);
      assert seen + Row(i, j, k + 1) == (seen + Row(i, j, k)) + [Ix(i, j, k)];
      k := k + 1;
    }
  }

  /** One combination: skipped unless valid, taken if it beats the best score so far. */
  method Consider(sp: Space, x: Ix, ghost seen: seq<Ix>, before: Option<Ix>) returns (best: Option<Ix>)
    requires sp.Has(x) && sp.Holds(seen) && before == sp.Best(seen)
    ensures sp.Holds(seen + [x]) && best == sp.Best(seen + [x])
  {
    assert (seen + [x])[..|seen|] == seen;
    assert forall y :: y in seen + [x] ==> y in seen || y == x;
    if !ComboValid(sp.caps, sp.At(x)) { return before; }
    var total := Total(sp.caps, sp.At(x), sp.pol);
    var bestScore := if before.Some? then Total(sp.caps, sp.At(before.value), sp.pol) else INT_MIN;
    if total > bestScore {
      BestScored(sp, seen);
      return Some(x);
    }
    return before;
  }

  lemma {:induction false} BestScored(sp: Space, xs: seq<Ix>)
    requires sp.Holds(xs)
    ensures sp.Best(xs).Some? ==> Total(sp.caps, sp.At(sp.Best(xs).value), sp.pol) > INT_MIN
    decreases |xs|
  {
    if xs != [] {
      BestScored(sp, xs[..|xs| - 1]);
    }
  }

  /** No stage overruns its array before the search gives up: a stage is looked at only while all stages
      before it have candidates. */
  predicate StaysInBounds(caps: Table, pref: Preference)
    requires pref.Valid()
  {
    var pol := Derive(pref);
    && !Overruns(caps, pref, pol, 0)
    && (Candidates(caps, pref, pol, 0) != [] ==>
          && !Overruns(caps, pref, pol, 1)
          && (Candidates(caps, pref, pol, 1) != [] ==> !Overruns(caps, pref, pol, 2)))
  }

  /** rfx_resolve; a null argument is an absent table or preference. */
  method RfxResolve(caps: Option<Table>, pref: Option<Preference>) returns (r: Selection)
    requires pref.Some? ==> pref.value.Valid()
    requires caps.Some? && pref.Some? ==> StaysInBounds(caps.value, pref.value)
    ensures r == if caps.Some? && pref.Some? then Resolve(caps.value, pref.value) else InvalidArgument
  {
    hide Inputs, Candidates, Derive, Cube, Space.Best, Overruns;
    if caps.None? || pref.None? { return InvalidArgument; }
    var t, p := caps.value, pref.value;
    var pol := Derive(p);
    var out0, out1, out2 := new nat[BACKEND_COUNT], new nat[BACKEND_COUNT], new nat[BACKEND_COUNT];
    var n0 := FillCandidates(t, p, pol, 0, out0);
    if n0 == 0 { EmptySpace(SpaceOf(t, p)); return NoValidSelection; }
    var n1 := FillCandidates(t, p, pol, 1, out1);
    if n1 == 0 { EmptySpace(SpaceOf(t, p)); return NoValidSelection; }
    var n2 := FillCandidates(t, p, pol, 2, out2);
    if n2 == 0 { EmptySpace(SpaceOf(t, p)); return NoValidSelection; }
    var sp := Space(t, pol, out0[..n0], out1[..n1], out2[..n2]);
    var best := Search(sp);
    if best.None? { return NoValidSelection; }
    return Selected(sp.At(best.value), Inputs(t, sp.At(best.value)));
  }

  /** A stage without candidates ends the search before it starts. */
  lemma EmptySpace(sp: Space)
    requires |sp.c0| == 0 || |sp.c1| == 0 || |sp.c2| == 0
    ensures sp.Best(AllPositions(sp)) == None
  {
    EmptyCube(|sp.c0|, |sp.c1|, |sp.c2|);
  }

  lemma {:induction false} EmptyPlane(i: nat, nj: nat)
    ensures Plane(i, nj, 0) == []
  {
    if nj > 0 {
      EmptyPlane(i, nj - 1);
    }
  }

  lemma {:induction false} EmptyCube(ni: nat, nj: nat, nk: nat)
    requires ni == 0 || nj == 0 || nk == 0
    ensures Cube(ni, nj, nk) == []
  {
    if ni > 0 {
      EmptyCube(ni - 1, nj, nk);
      EmptyPlane(ni - 1, nj);
    }
  }
}
