/** What each part of a typed stub does to the processor state, for any position lists. */
module StubRun {
  import opened Bytes
  import opened Machine
  import opened Codec
  import opened CallAbi
  import opened StubCode

  /** A position list with the k-th entry at k or later, all below the argument limit. */
  predicate Positions(pos: seq<nat>) {
    forall k :: 0 <= k < |pos| ==> k <= pos[k] < MAX_ARGS
  }

  // ----- Integer registers

  /** Where the fetch of INTEGER argument i finds its value. */
  function Fetched(i: nat, e: State): Word {
    if i < 4 then e.gpr[MS_GPR[i]] else At(e, Sp(e), MsSlot(i))
  }

  /** After the saves and the first n fetches: the three saved sources and a still needed R9 are
      intact, and System V register k holds the k-th INTEGER argument for every k below n. */
  ghost predicate GprDone(ipos: seq<nat>, n: nat, e: State, s: State)
    requires n <= |ipos| && n <= 6
  {
    && s.xmm == e.xmm && s.mem == e.mem && Sp(s) == Sp(e)
    && s.gpr[R10] == e.gpr[RCX] && s.gpr[R11] == e.gpr[RDX] && s.gpr[RAX] == e.gpr[R8]
    && (n < 6 ==> s.gpr[R9] == e.gpr[R9])
    && KeepsNonVolatile(e, s)
    && forall k :: 0 <= k < n ==> s.gpr[SV_GPR[k]] == Fetched(ipos[k], e)
  }

  /** A fetch reads the right source, because its saved copy is still intact. */
  lemma FetchReads(ipos: seq<nat>, n: nat, e: State, s: State)
    requires Positions(ipos) && n < |ipos| && n < 6
    requires Sp(e) % 8 == 0 && GprDone(ipos, n, e, s)
    ensures Exec(GprMove(n, ipos[n]), s) == Some(SetReg(s, SV_GPR[n], Fetched(ipos[n], e)))
  {
    var i := ipos[n];
    if i >= 4 {
      AtThroughSp(s, Sp(e), 0, MsSlot(i));
    } else {
      assert SAVED[i] == [R10, R11, RAX, R9][i];
    }
  }

  /** The destinations are distinct from each other and from everything still needed. */
  lemma DestinationsApart(n: nat, k: nat)
    requires n < 6 && k < 6
    ensures SV_GPR[n] != R10 && SV_GPR[n] != R11 && SV_GPR[n] != RAX && SV_GPR[n] != RSP
    ensures SV_GPR[n] == R9 <==> n == 5
    ensures SV_GPR[n] != KEPT[k]
    ensures SV_GPR[n] == SV_GPR[k] ==> n == k
    ensures KEPT[k] != RAX && KEPT[k] != RSP
  {
  }

  lemma GprStep(ipos: seq<nat>, n: nat, e: State, s: State)
    requires n < |ipos| && n < 6
    requires GprDone(ipos, n, e, s)
    ensures GprDone(ipos, n + 1, e, SetReg(s, SV_GPR[n], Fetched(ipos[n], e)))
  {
    forall k: nat | k < 6
      ensures SV_GPR[n] != KEPT[k] && (k != n ==> SV_GPR[n] != SV_GPR[k])
    {
      DestinationsApart(n, k);
    }
    DestinationsApart(n, n);
  }

  lemma {:induction false} GprRun(ipos: seq<nat>, n: nat, e: State)
    requires Positions(ipos) && n <= |ipos| && n <= 6 && Sp(e) % 8 == 0
    ensures var r := ExecAll(SAVES + GprMoves(ipos, n), e); r.Some? && GprDone(ipos, n, e, r.value)
  {
    if n == 0 {
      SavesRun(e);
      assert SAVES + GprMoves(ipos, 0) == SAVES;
    } else {
      GprRun(ipos, n - 1, e);
      var code := SAVES + GprMoves(ipos, n);
      assert code[..|code| - 1] == SAVES + GprMoves(ipos, n - 1);
      assert code[|code| - 1] == GprMove(n - 1, ipos[n - 1]);
      var s := ExecAll(code[..|code| - 1], e).value;
      FetchReads(ipos, n - 1, e, s);
      GprStep(ipos, n - 1, e, s);
    }
  }

  lemma SavesRun(e: State)
    ensures ExecAll(SAVES, e) == Some(SetReg(SetReg(SetReg(e, R10, e.gpr[RCX]), R11, e.gpr[RDX]), RAX, e.gpr[R8]))
  {
    assert SAVES[..2][..1][..0] == [];
    assert SAVES[..2] == [MovReg(R10, RCX), MovReg(R11, RDX)];
    assert SAVES[..2][..1] == [MovReg(R10, RCX)];
    var s1 := SetReg(e, R10, e.gpr[RCX]);
    assert ExecAll(SAVES[..2][..1], e) == Some(s1);
    var s2 := SetReg(s1, R11, e.gpr[RDX]);
    assert ExecAll(SAVES[..2], e) == Some(s2);
  }

  // ----- Vector registers

  /** After the first n vector moves, as encoded: a register below n holds its argument if that was
      in a register an encoding without prefix can name; the others are untouched; and no register
      holds anything that was not in a vector register on entry. */
  ghost predicate XmmDone(spos: seq<nat>, n: nat, e: State, s: State)
    requires n <= |spos| && n <= 8
  {
    && s.gpr == e.gpr && s.mem == e.mem
    && (forall k :: 0 <= k < n && spos[k] < 8 ==> s.xmm[k] == e.xmm[spos[k]])
    && (forall k :: n <= k < 16 ==> s.xmm[k] == e.xmm[k])
    && (forall k :: 0 <= k < 16 ==> s.xmm[k] in e.xmm)
  }

  lemma AsEncodedAppend(a: seq<Instr>, b: seq<Instr>)
    ensures AsEncodedAll(a + b) == AsEncodedAll(a) + AsEncodedAll(b)
  {
  }

  lemma AsEncodedSame(code: seq<Instr>)
    requires forall k :: 0 <= k < |code| ==> !code[k].MovXmm?
    ensures AsEncodedAll(code) == code
  {
  }

  /** Moving xmm[src] down to xmm[n], where src is n or later unless the encoding cut it short. */
  lemma XmmStep(spos: seq<nat>, n: nat, e: State, s: State, s': State)
    requires Positions(spos) && n < |spos| && n < 8
    requires XmmDone(spos, n, e, s)
    requires s' == s.(xmm := s.xmm[n := s.xmm[Low3(spos[n])]])
    ensures XmmDone(spos, n + 1, e, s')
  {
    var src := Low3(spos[n]);
    assert s'.xmm[n] == s.xmm[src];
    assert spos[n] < 8 ==> s.xmm[src] == e.xmm[spos[n]];
    forall k | 0 <= k < 16 ensures s'.xmm[k] in e.xmm {
      assert k != n ==> s'.xmm[k] == s.xmm[k];
    }
  }

  /** The n-th vector move, as encoded, or nothing. */
  function XmmMove(spos: seq<nat>, n: nat): seq<Instr>
    requires n < |spos| && n < 8 && spos[n] < MAX_ARGS
  {
    if spos[n] != n then [MovXmm(n, Low3(spos[n]))] else []
  }

  lemma XmmMoveRun(spos: seq<nat>, n: nat, front: seq<Instr>, e: State, s: State)
    requires Positions(spos) && n < |spos| && n < 8
    requires ExecAll(front, e) == Some(s) && XmmDone(spos, n, e, s)
    ensures var r := ExecAll(front + XmmMove(spos, n), e); r.Some? && XmmDone(spos, n + 1, e, r.value)
  {
    var code := front + XmmMove(spos, n);
    var src := Low3(spos[n]);
    var s' := s.(xmm := s.xmm[n := s.xmm[src]]);
    XmmStep(spos, n, e, s, s');
    if spos[n] != n {
      assert code[..|code| - 1] == front;
      assert Exec(MovXmm(n, src), s) == Some(s');
    } else {
      assert code == front;
      assert s.xmm[n := s.xmm[n]] == s.xmm;
    }
  }

  lemma AsEncodedXmm(spos: seq<nat>, n: nat)
    requires Positions(spos) && n < |spos| && n < 8
    ensures AsEncodedAll(XmmMoves(spos, n + 1)) == AsEncodedAll(XmmMoves(spos, n)) + XmmMove(spos, n)
  {
    if spos[n] != n {
      AsEncodedAppend(XmmMoves(spos, n), [MovXmm(n, spos[n])]);
    }
  }

  lemma {:induction false} XmmRun(spos: seq<nat>, n: nat, e: State)
    requires Positions(spos) && n <= |spos| && n <= 8
    ensures var r := ExecAll(AsEncodedAll(XmmMoves(spos, n)), e); r.Some? && XmmDone(spos, n, e, r.value)
  {
    if n > 0 {
      XmmRun(spos, n - 1, e);
      var front := AsEncodedAll(XmmMoves(spos, n - 1));
      AsEncodedXmm(spos, n - 1);
      XmmMoveRun(spos, n - 1, front, e, ExecAll(front, e).value);
    }
  }

  // ----- Stack

  /** RSP is d below the entry RSP, the words ws start there, and the caller's frame is as it was. */
  ghost predicate StackHeld(d: int, ws: seq<Word>, e: State, s: State) {
    && Sp(s) == Wrap(Sp(e) - d)
    && Words(s, Sp(e), -d, |ws|) == ws
    && SameAbove(s, e, Sp(e))
  }

  /** Nothing but RSP and the stack differs from the entry. */
  ghost predicate Pushed(d: int, ws: seq<Word>, e: State, s: State) {
    s.xmm == e.xmm && s.gpr == e.gpr[RSP := Sp(s)] && StackHeld(d, ws, e, s)
  }

  /** A push through RSP with the depth added to its displacement reads the entry frame. */
  lemma PushReads(d: int, ws: seq<Word>, i: nat, e: State, s: State)
    requires 4 <= i < MAX_ARGS && Sp(e) % 8 == 0 && d % 8 == 0 && StackHeld(d, ws, e, s)
    ensures Exec(PushRsp(MsSlot(i) + d), s) == Some(Push(s, At(e, Sp(e), MsSlot(i))))
  {
    hide Words, Wrap, At, Exec, Push;
    assert At(s, Sp(e), MsSlot(i)) == At(e, Sp(e), MsSlot(i));
    AtThroughSp(s, Sp(e), -d, MsSlot(i) + d);
    PushExec(MsSlot(i) + d, s);
  }

  lemma PushExec(disp: int, s: State)
    requires Wrap(Sp(s) + disp) % 8 == 0 && Sp(s) % 8 == 0
    ensures Exec(PushRsp(disp), s) == Some(Push(s, At(s, Sp(s), disp)))
  {
  }

  lemma PushedReads(d: int, ws: seq<Word>, i: nat, e: State, s: State)
    requires 4 <= i < MAX_ARGS && Sp(e) % 8 == 0 && d % 8 == 0 && Pushed(d, ws, e, s)
    ensures Exec(PushRsp(MsSlot(i) + d), s) == Some(Push(s, At(e, Sp(e), MsSlot(i))))
  {
    PushReads(d, ws, i, e, s);
  }

  lemma PushStep(d: int, ws: seq<Word>, v: Word, e: State, s: State)
    requires 0 <= d < 0x1000 && |ws| < 0x100 && Pushed(d, ws, e, s)
    ensures Pushed(d + 8, [v] + ws, e, Push(s, v))
  {
    WordsGrow(s, Sp(e), -d, v, |ws|);
    SameAboveAfterPush(s, Sp(e), -d, v);
    PushedCell(s, Sp(e), -d, v);
    assert Push(s, v).gpr == e.gpr[RSP := Sp(Push(s, v))];
  }

  /** The words the first n pushes leave, lowest address first. */
  function PushSources(stk: seq<nat>, n: nat, e: State): (ws: seq<Word>)
    requires n <= |stk|
    ensures |ws| == n
  {
    if n == 0 then [] else [At(e, Sp(e), MsSlot(stk[|stk| - n]))] + PushSources(stk, n - 1, e)
  }

  lemma PadRun(pad: nat, e: State)
    ensures var r := ExecAll(PadCode(pad), e); r.Some? && Pushed(pad, [], e, r.value) && r.value.mem == e.mem
  {
    var code := PadCode(pad);
    if pad != 0 {
      assert code[..0] == [];
      assert ExecAll(code, e) == Exec(SubRsp(pad), e);
    } else {
      assert ExecAll(code, e) == Some(e);
      assert e.gpr[RSP := Sp(e)] == e.gpr;
    }
  }

  /** The n-th push after any code that has made the n - 1 before it. */
  lemma PushOnce(stk: seq<nat>, pad: nat, n: nat, e: State, s: State, s': State)
    requires 0 < n <= |stk| <= MAX_ARGS && (pad == 0 || pad == 8) && Sp(e) % 8 == 0
    requires 4 <= stk[|stk| - n] < MAX_ARGS
    requires Pushed(pad + 8 * (n - 1), PushSources(stk, n - 1, e), e, s)
    requires s' == Push(s, At(e, Sp(e), MsSlot(stk[|stk| - n])))
    ensures Exec(PushOf(stk, pad, n - 1), s) == Some(s')
    ensures Pushed(pad + 8 * n, PushSources(stk, n, e), e, s')
  {
    hide Pushed, Exec, Push, At;
    var i := stk[|stk| - n];
    var d := pad + 8 * (n - 1);
    var ws := PushSources(stk, n - 1, e);
    PushedReads(d, ws, i, e, s);
    PushStep(d, ws, At(e, Sp(e), MsSlot(i)), e, s);
    assert PushOf(stk, pad, n - 1) == PushRsp(MsSlot(i) + d);
  }

  /** The state after n pushes. */
  function PushedState(stk: seq<nat>, n: nat, e: State, s: State): State
    requires n <= |stk|
  {
    if n == 0 then s else Push(PushedState(stk, n - 1, e, s), At(e, Sp(e), MsSlot(stk[|stk| - n])))
  }

  lemma {:induction false} PushesHold(stk: seq<nat>, pad: nat, n: nat, e: State, s: State)
    requires n <= |stk| <= MAX_ARGS && (pad == 0 || pad == 8) && Sp(e) % 8 == 0
    requires forall k :: 0 <= k < |stk| ==> 4 <= stk[k] < MAX_ARGS
    requires Pushed(pad, [], e, s)
    ensures Pushed(pad + 8 * n, PushSources(stk, n, e), e, PushedState(stk, n, e, s))
  {
    if n > 0 {
      PushesHold(stk, pad, n - 1, e, s);
      PushOnce(stk, pad, n, e, PushedState(stk, n - 1, e, s), PushedState(stk, n, e, s));
    }
  }

  /** Push k executes, from the state the k pushes before it left. */
  lemma PushLegal(stk: seq<nat>, pad: nat, k: nat, e: State, s: State)
    requires k < |stk| <= MAX_ARGS && (pad == 0 || pad == 8) && Sp(e) % 8 == 0
    requires forall k :: 0 <= k < |stk| ==> 4 <= stk[k] < MAX_ARGS
    requires Pushed(pad, [], e, s)
    ensures Exec(PushOf(stk, pad, k), PushedState(stk, k, e, s)) == Some(PushedState(stk, k + 1, e, s))
  {
    hide Pushed, Exec, Push, At, PushOf;
    PushesHold(stk, pad, k, e, s);
    PushOnce(stk, pad, k + 1, e, PushedState(stk, k, e, s), PushedState(stk, k + 1, e, s));
  }

  /** Each of the first n pushes executes from the state the ones before it left. */
  ghost predicate PushesLegal(stk: seq<nat>, pad: nat, n: nat, e: State, s: State)
    requires n <= |stk|
  {
    forall k :: 0 <= k < n ==>
      Exec(PushOf(stk, pad, k), PushedState(stk, k, e, s)) == Some(PushedState(stk, k + 1, e, s))
  }

  lemma AllPushesLegal(stk: seq<nat>, pad: nat, e: State, s: State)
    requires |stk| <= MAX_ARGS && (pad == 0 || pad == 8) && Sp(e) % 8 == 0
    requires forall k :: 0 <= k < |stk| ==> 4 <= stk[k] < MAX_ARGS
    requires Pushed(pad, [], e, s)
    ensures PushesLegal(stk, pad, |stk|, e, s)
  {
    forall k | 0 <= k < |stk|
      ensures Exec(PushOf(stk, pad, k), PushedState(stk, k, e, s)) == Some(PushedState(stk, k + 1, e, s))
    {
      PushLegal(stk, pad, k, e, s);
    }
  }

  lemma {:induction false} PushesExec(pre: seq<Instr>, stk: seq<nat>, pad: nat, n: nat, e: State, s: State)
    requires n <= |stk| && ExecAll(pre, e) == Some(s)
    requires PushesLegal(stk, pad, n, e, s)
    ensures ExecAll(pre + Pushes(stk, pad, n), e) == Some(PushedState(stk, n, e, s))
  {
    if n == 0 {
      assert pre + Pushes(stk, pad, n) == pre;
    } else {
      PushesExec(pre, stk, pad, n - 1, e, s);
      var front, last := pre + Pushes(stk, pad, n - 1), PushOf(stk, pad, n - 1);
      var s1, s2 := PushedState(stk, n - 1, e, s), PushedState(stk, n, e, s);
      assert Exec(last, s1) == Some(s2);
      assert pre + Pushes(stk, pad, n) == front + [last];
    }
  }

  /** Executing all pushes after any code that has made room for the pad. */
  lemma PushRun(pre: seq<Instr>, stk: seq<nat>, pad: nat, e: State, s: State) returns (s': State)
    requires |stk| <= MAX_ARGS && (pad == 0 || pad == 8) && Sp(e) % 8 == 0
    requires forall k :: 0 <= k < |stk| ==> 4 <= stk[k] < MAX_ARGS
    requires ExecAll(pre, e) == Some(s) && Pushed(pad, [], e, s)
    ensures ExecAll(pre + Pushes(stk, pad, |stk|), e) == Some(s')
    ensures Pushed(pad + 8 * |stk|, PushSources(stk, |stk|, e), e, s')
  {
    s' := PushedState(stk, |stk|, e, s);
    assert ExecAll(pre + Pushes(stk, pad, |stk|), e) == Some(s') by {
      assert PushesLegal(stk, pad, |stk|, e, s) by {
        AllPushesLegal(stk, pad, e, s);
      }
      PushesExec(pre, stk, pad, |stk|, e, s);
    }
    assert Pushed(pad + 8 * |stk|, PushSources(stk, |stk|, e), e, s') by {
      PushesHold(stk, pad, |stk|, e, s);
    }
  }
}
