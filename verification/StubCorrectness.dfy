/** The typed stub translates the calling convention: the main results about ms_thunk_typed.c. */
module StubCorrectness {
  import opened Bytes
  import opened Machine
  import opened Codec
  import opened CallAbi
  import opened StubCode
  import opened StubRun

  /** Running octets: decode them, then execute. */
  function RunBytes(bs: seq<byte>, s: State): Outcome {
    match DecodeAll(bs)
    case None => Stuck
    case Some(code) => Run(code, s)
  }

  /** The emitted octets, run from the entry state. */
  function RunStub(ks: seq<int>, target: Word, e: State): Outcome
    requires |ks| <= MAX_ARGS
  {
    RunBytes(StubBytes(ks, target), e)
  }

  /** Running the emitted octets is running the intended instruction list, with vector registers as
      the encoding names them. */
  lemma BytesRunAsStub(ks: seq<int>, target: Word, e: State)
    requires |ks| <= MAX_ARGS
    ensures RunStub(ks, target, e) == Run(AsEncodedAll(Stub(ks, target)), e)
  {
    StubDecodes(ks, target);
  }

  /** How far below the entry RSP the target is called. */
  function Depth(ks: seq<int>): int {
    PadFor(MemRank(ks, |ks|)) + 8 * MemRank(ks, |ks|)
  }

  /** The memory arguments in order, read from the caller's frame. */
  function ArgArea(ks: seq<int>, e: State): (ws: seq<Word>)
    ensures |ws| == MemRank(ks, |ks|)
  {
    PushSources(MemPos(ks, |ks|), MemRank(ks, |ks|), e)
  }

  /** The argument registers hold the register arguments, except vector arguments that the encoding
      cannot name; no vector register holds anything else than an entry value. */
  ghost predicate RegistersHeld(ks: seq<int>, e: State, c: State)
    requires |ks| <= MAX_ARGS
  {
    && KeepsNonVolatile(e, c)
    && (forall k :: 0 <= k < Min(IntRank(ks, |ks|), 6) ==> c.gpr[SV_GPR[k]] == Fetched(IntPos(ks, |ks|)[k], e))
    && (forall k :: 0 <= k < Min(SseRank(ks, |ks|), 8) && SsePos(ks, |ks|)[k] < 8 ==>
          c.xmm[k] == e.xmm[SsePos(ks, |ks|)[k]])
    && (forall k :: 0 <= k < 16 ==> c.xmm[k] in e.xmm)
  }

  /** The state the stub calls its target in, before the return address is pushed. */
  ghost predicate ReadyToCall(ks: seq<int>, target: Word, e: State, c: State)
    requires |ks| <= MAX_ARGS
  {
    c.gpr[RAX] == target && RegistersHeld(ks, e, c) && StackHeld(Depth(ks), ArgArea(ks, e), e, c)
  }

  lemma AsEncodedStub(ks: seq<int>, target: Word)
    requires |ks| <= MAX_ARGS
    ensures AsEncodedAll(Stub(ks, target)) ==
      GprCode(ks) + AsEncodedAll(XmmCode(ks)) + StackCode(ks) + ([MovImm(RAX, target), CallReg(RAX)] + Cleanup(ks))
  {
    var tail := [MovImm(RAX, target), CallReg(RAX)] + Cleanup(ks);
    AsEncodedAppend(GprCode(ks), XmmCode(ks));
    AsEncodedAppend(GprCode(ks) + XmmCode(ks), StackCode(ks));
    AsEncodedAppend(GprCode(ks) + XmmCode(ks) + StackCode(ks), tail);
    AsEncodedSame(GprCode(ks));
    AsEncodedSame(StackCode(ks));
    AsEncodedSame(tail);
  }

  lemma PositionLists(ks: seq<int>)
    requires |ks| <= MAX_ARGS
    ensures Positions(IntPos(ks, |ks|)) && Positions(SsePos(ks, |ks|))
    ensures forall k :: 0 <= k < |MemPos(ks, |ks|)| ==> 4 <= MemPos(ks, |ks|)[k] < MAX_ARGS
  {
    forall k | 0 <= k < |IntPos(ks, |ks|)| ensures k <= IntPos(ks, |ks|)[k] < MAX_ARGS {
      IntPosAt(ks, |ks|, k);
    }
    forall k | 0 <= k < |MemPos(ks, |ks|)| ensures 4 <= MemPos(ks, |ks|)[k] < MAX_ARGS {
      MemPosAt(ks, |ks|, k);
    }
    SsePosBounded(ks);
  }

  lemma RegistersRun(ks: seq<int>, e: State)
    requires |ks| <= MAX_ARGS && Sp(e) % 8 == 0
    ensures var r := ExecAll(GprCode(ks) + AsEncodedAll(XmmCode(ks)), e);
      r.Some? && r.value.mem == e.mem && Sp(r.value) == Sp(e) && RegistersHeld(ks, e, r.value)
  {
    PositionLists(ks);
    GprRun(IntPos(ks, |ks|), Min(IntRank(ks, |ks|), 6), e);
    var g := ExecAll(GprCode(ks), e).value;
    XmmRun(SsePos(ks, |ks|), Min(SseRank(ks, |ks|), 8), g);
    ExecAllAppend(GprCode(ks), AsEncodedAll(XmmCode(ks)), e);
  }

  lemma StackRun(ks: seq<int>, x: State)
    requires |ks| <= MAX_ARGS && Sp(x) % 8 == 0
    ensures var r := ExecAll(StackCode(ks), x); r.Some? && Pushed(Depth(ks), ArgArea(ks, x), x, r.value)
  {
    PositionLists(ks);
    var stk, pad := MemPos(ks, |ks|), PadFor(MemRank(ks, |ks|));
    PadRun(pad, x);
    var s := PushRun(PadCode(pad), stk, pad, x, ExecAll(PadCode(pad), x).value);
  }

  lemma TailRun(target: Word, n: int, s: State)
    ensures Run([MovImm(RAX, target), CallReg(RAX)] + [AddRsp(n), Ret], s)
      == Called(target, SetReg(s, RAX, target), [AddRsp(n), Ret])
  {
    var code := [MovImm(RAX, target), CallReg(RAX)] + [AddRsp(n), Ret];
    assert code[1..] == [CallReg(RAX), AddRsp(n), Ret];
    assert code[1..][1..] == [AddRsp(n), Ret];
  }

  /** The stack part only looks at the memory and the stack pointer. */
  lemma StackKept(d: int, ws: seq<Word>, target: Word, e: State, x: State, s: State)
    requires x.mem == e.mem && Sp(x) == Sp(e) && StackHeld(d, ws, x, s)
    ensures StackHeld(d, ws, e, SetReg(s, RAX, target))
  {
    SameWords(SetReg(s, RAX, target), s, Sp(e), -d, |ws|);
    var c := SetReg(s, RAX, target);
    forall off | 0 <= off < 0x1000 ensures At(c, Sp(e), off) == At(e, Sp(e), off) {
      assert At(s, Sp(x), off) == At(x, Sp(x), off);
    }
  }

  lemma {:induction false} SameSources(stk: seq<nat>, n: nat, e: State, x: State)
    requires n <= |stk| && x.mem == e.mem && Sp(x) == Sp(e)
    ensures PushSources(stk, n, x) == PushSources(stk, n, e)
  {
    if n > 0 {
      SameSources(stk, n - 1, e, x);
    }
  }

  lemma StateAtCall(ks: seq<int>, target: Word, e: State, x: State, s: State)
    requires |ks| <= MAX_ARGS
    requires x.mem == e.mem && Sp(x) == Sp(e) && RegistersHeld(ks, e, x)
    requires Pushed(Depth(ks), ArgArea(ks, x), x, s)
    ensures ReadyToCall(ks, target, e, SetReg(s, RAX, target))
  {
    SameSources(MemPos(ks, |ks|), MemRank(ks, |ks|), e, x);
    StackKept(Depth(ks), ArgArea(ks, x), target, e, x, s);
  }

  /** Executing the parts in turn is running the decoded stub up to its call. */
  lemma PartsRun(ks: seq<int>, target: Word, e: State, x: State, s: State)
    requires |ks| <= MAX_ARGS
    requires ExecAll(GprCode(ks) + AsEncodedAll(XmmCode(ks)), e) == Some(x) && ExecAll(StackCode(ks), x) == Some(s)
    ensures Run(AsEncodedAll(Stub(ks, target)), e) == Called(target, SetReg(s, RAX, target), Cleanup(ks))
  {
    var regs := GprCode(ks) + AsEncodedAll(XmmCode(ks));
    AsEncodedStub(ks, target);
    ExecAllAppend(regs, StackCode(ks), e);
    RunAfter(regs + StackCode(ks), [MovImm(RAX, target), CallReg(RAX)] + Cleanup(ks), e);
    TailRun(target, 8 * MemRank(ks, |ks|) + PadFor(MemRank(ks, |ks|)), s);
  }

  /** An outcome in which the target is called with everything in place. */
  ghost predicate ReachedCall(ks: seq<int>, target: Word, e: State, o: Outcome)
    requires |ks| <= MAX_ARGS
  {
    o.Called? && o.target == target && o.rest == Cleanup(ks) && ReadyToCall(ks, target, e, o.at)
  }

  lemma ExecutionToCall(ks: seq<int>, target: Word, e: State) returns (x: State, s: State)
    requires |ks| <= MAX_ARGS && AtEntry(e)
    ensures ExecAll(GprCode(ks) + AsEncodedAll(XmmCode(ks)), e) == Some(x) && ExecAll(StackCode(ks), x) == Some(s)
    ensures ReachedCall(ks, target, e, Called(target, SetReg(s, RAX, target), Cleanup(ks)))
  {
    hide ExecAll, GprCode, XmmCode, StackCode, ReadyToCall, AsEncodedAll;
    RegistersRun(ks, e);
    x := ExecAll(GprCode(ks) + AsEncodedAll(XmmCode(ks)), e).value;
    StackRun(ks, x);
    s := ExecAll(StackCode(ks), x).value;
    StateAtCall(ks, target, e, x, s);
  }

  /** From every entry state the emitted octets run, without a stuck access, to the call of the
      target, with the argument registers and the argument area filled. */
  lemma ReachesCall(ks: seq<int>, target: Word, e: State)
    requires |ks| <= MAX_ARGS && AtEntry(e)
    ensures ReachedCall(ks, target, e, RunStub(ks, target, e))
  {
    hide RunStub, ReachedCall, AsEncodedAll, Stub;
    var x, s := ExecutionToCall(ks, target, e);
    PartsRun(ks, target, e, x, s);
    BytesRunAsStub(ks, target, e);
  }

  lemma Mod16(a: int, b: int)
    requires a % 16 == 8 && b % 16 == 8
    ensures (a - b) % 16 == 0
  {
  }

  lemma AlignedCall(sp: int, d: int)
    requires sp % 16 == 8 && d % 16 == 8
    ensures Wrap(sp - d) % 16 == 0
  {
    WrapAligned(sp - d);
    Mod16(sp, d);
  }

  lemma DepthMod(nstk: nat)
    ensures (PadFor(nstk) + 8 * nstk) % 16 == 8
  {
  }

  /** The convention's alignment: RSP is 0 modulo 16 at the call. */
  lemma CallIsAligned(ks: seq<int>, target: Word, e: State)
    requires |ks| <= MAX_ARGS && AtEntry(e)
    ensures var o := RunStub(ks, target, e); o.Called? && Sp(o.at) % 16 == 0
  {
    hide RunStub, RegistersHeld, ArgArea, MemRank, PadFor;
    ReachesCall(ks, target, e);
    DepthMod(MemRank(ks, |ks|));
    AlignedCall(Sp(e), Depth(ks));
  }

  /** Arguments the stub handles: every INTEGER argument, every argument the System V side takes in
      memory, and an SSE argument that the Microsoft side passes in a register. */
  predicate Covered(ks: seq<int>, i: nat)
    requires i < |ks|
  {
    IntClass(ks[i]) || SseRank(ks, i) >= 8 || i < 4
  }

  lemma {:induction false} PushSourcesAt(stk: seq<nat>, n: nat, e: State, k: nat)
    requires n <= |stk| && k < n
    ensures PushSources(stk, n, e)[k] == At(e, Sp(e), MsSlot(stk[|stk| - n + k]))
  {
    if k > 0 {
      PushSourcesAt(stk, n - 1, e, k - 1);
    }
  }

  /** Word m of the argument area, as the callee sees it above its return address. */
  lemma AreaWord(d: int, ws: seq<Word>, e: State, c: State, ret: Word, m: nat)
    requires StackHeld(d, ws, e, c) && m < |ws| < 0x100
    ensures At(Push(c, ret), Sp(Push(c, ret)), 8 + 8 * m) == ws[m]
  {
    var base := Sp(e);
    WordsAfterPush(c, base, -d, ret, -d, |ws|);
    WordAt(Push(c, ret), base, -d, |ws|, m);
    PushedCell(c, base, -d, ret);
    AtThroughSp(Push(c, ret), base, -d - 8, 8 + 8 * m);
  }

  /** The word of rank m in the area is the m-th memory argument. */
  lemma AreaSource(ks: seq<int>, e: State, i: nat)
    requires |ks| <= MAX_ARGS && i < |ks| && InMemory(ks, i)
    ensures MemRank(ks, i) < MemRank(ks, |ks|) <= MAX_ARGS && i >= 4
    ensures ArgArea(ks, e)[MemRank(ks, i)] == At(e, Sp(e), MsSlot(i))
  {
    MemPosOf(ks, |ks|, i);
    MemPosAt(ks, |ks|, MemRank(ks, i));
    PushSourcesAt(MemPos(ks, |ks|), MemRank(ks, |ks|), e, MemRank(ks, i));
  }

  lemma MemoryArgument(ks: seq<int>, e: State, c: State, ret: Word, i: nat)
    requires |ks| <= MAX_ARGS && i < |ks| && InMemory(ks, i)
    requires StackHeld(Depth(ks), ArgArea(ks, e), e, c)
    ensures SysvValue(ks, i, Push(c, ret)) == MsValue(ks, i, e)
  {
    AreaSource(ks, e, i);
    AreaWord(Depth(ks), ArgArea(ks, e), e, c, ret, MemRank(ks, i));
  }

  lemma RegisterArgument(ks: seq<int>, e: State, c: State, ret: Word, i: nat)
    requires |ks| <= MAX_ARGS && i < |ks| && !InMemory(ks, i) && Covered(ks, i)
    requires RegistersHeld(ks, e, c)
    ensures SysvValue(ks, i, Push(c, ret)) == MsValue(ks, i, e)
  {
    if IntClass(ks[i]) {
      var r := IntRank(ks, i);
      IntPosOf(ks, |ks|, i);
      DestinationsApart(r, r);
      assert c.gpr[SV_GPR[r]] == Fetched(i, e);
    } else {
      var r := SseRank(ks, i);
      SsePosOf(ks, |ks|, i);
      assert c.xmm[r] == e.xmm[i];
    }
  }

  lemma DeliveredAtCall(ks: seq<int>, target: Word, e: State, o: Outcome, ret: Word, i: nat)
    requires |ks| <= MAX_ARGS && i < |ks| && Covered(ks, i) && ReachedCall(ks, target, e, o)
    ensures SysvValue(ks, i, Push(o.at, ret)) == MsValue(ks, i, e)
  {
    if InMemory(ks, i) {
      MemoryArgument(ks, e, o.at, ret, i);
    } else {
      RegisterArgument(ks, e, o.at, ret, i);
    }
  }

  /** Every covered argument reaches a System V callee with the value the Microsoft caller passed. */
  lemma ArgumentDelivered(ks: seq<int>, target: Word, e: State, ret: Word, i: nat)
    requires |ks| <= MAX_ARGS && i < |ks| && Covered(ks, i) && AtEntry(e)
    ensures var o := RunStub(ks, target, e);
      o.Called? && o.target == target && SysvValue(ks, i, Push(o.at, ret)) == MsValue(ks, i, e)
  {
    ReachesCall(ks, target, e);
    DeliveredAtCall(ks, target, e, RunStub(ks, target, e), ret, i);
  }

  // ----- Exactly which arguments arrive

  /** Argument i arrives, in its significant bits, at the call o. */
  ghost predicate ArrivesAt(ks: seq<int>, e: State, o: Outcome, ret: Word, i: nat)
    requires i < |ks|
  {
    && o.Called?
    && Significant(ks[i], SysvValue(ks, i, Push(o.at, ret))) == Significant(ks[i], MsValue(ks, i, e))
  }

  /** Argument i arrives when the stub runs from the entry state e. */
  ghost predicate Arrives(ks: seq<int>, target: Word, e: State, ret: Word, i: nat)
    requires |ks| <= MAX_ARGS && i < |ks|
  {
    ArrivesAt(ks, e, RunStub(ks, target, e), ret, i)
  }

  /** An entry state in which all vector registers are zero and stack slot i is one. */
  predicate HidesArgument(e: State, i: nat) {
    && AtEntry(e) && At(e, Sp(e), MsSlot(i)) == 1
    && forall k :: 0 <= k < 16 ==> e.xmm[k] == Xmm(0, 0)
  }

  lemma SuchStateExists(i: nat) returns (e: State)
    ensures HidesArgument(e, i)
  {
    e := Cpu(seq(16, k => 8), seq(16, k => Xmm(0, 0)), map[Wrap(8 + MsSlot(i)) := 1]);
  }

  lemma LostAtCall(ks: seq<int>, target: Word, e: State, o: Outcome, ret: Word, i: nat)
    requires |ks| <= MAX_ARGS && i < |ks| && !Covered(ks, i)
    requires HidesArgument(e, i) && ReachedCall(ks, target, e, o)
    ensures !ArrivesAt(ks, e, o, ret, i)
  {
    assert o.at.xmm[SseRank(ks, i)] in e.xmm;
    assert SysvValue(ks, i, Push(o.at, ret)) == 0;
    assert MsValue(ks, i, e) == 1;
  }

  /** No vector argument at Microsoft position 4 or later is ever fetched from its stack slot. */
  lemma UncoveredIsLost(ks: seq<int>, target: Word, e: State, ret: Word, i: nat)
    requires |ks| <= MAX_ARGS && i < |ks| && !Covered(ks, i) && HidesArgument(e, i)
    ensures !Arrives(ks, target, e, ret, i)
  {
    ReachesCall(ks, target, e);
    LostAtCall(ks, target, e, RunStub(ks, target, e), ret, i);
  }

  /** The stub delivers argument i from every entry state if and only if it is covered. */
  lemma DeliveredIffCovered(ks: seq<int>, target: Word, ret: Word, i: nat)
    requires |ks| <= MAX_ARGS && i < |ks|
    ensures (forall e: State :: AtEntry(e) ==> Arrives(ks, target, e, ret, i)) <==> Covered(ks, i)
  {
    if Covered(ks, i) {
      forall e: State | AtEntry(e) ensures Arrives(ks, target, e, ret, i) {
        ArgumentDelivered(ks, target, e, ret, i);
      }
    } else {
      var e := SuchStateExists(i);
      UncoveredIsLost(ks, target, e, ret, i);
    }
  }

  /** A vector argument that is to be moved sits at a position below 8. */
  predicate VectorSourcesNameable(ks: seq<int>) {
    forall i :: 0 <= i < |ks| && !IntClass(ks[i]) && SseRank(ks, i) < 8 ==> i < 8
  }

  /** The octets decode to the intended instructions exactly when no vector argument that is to be
      moved sits at position 8 or later. */
  lemma DecodesAsIntended(ks: seq<int>, target: Word)
    requires |ks| <= MAX_ARGS
    ensures AsEncodedAll(Stub(ks, target)) == Stub(ks, target) <==> VectorSourcesNameable(ks)
  {
    AsEncodedStub(ks, target);
    PositionLists(ks);
    var x := XmmCode(ks);
    SamePrefixSuffix(GprCode(ks), AsEncodedAll(x), x, StackCode(ks), [MovImm(RAX, target), CallReg(RAX)] + Cleanup(ks));
    XmmTruncation(SsePos(ks, |ks|), Min(SseRank(ks, |ks|), 8));
    NameableByRank(ks);
  }

  ghost predicate AllBelow8(pos: seq<nat>, n: nat)
    requires n <= |pos|
  {
    forall k :: 0 <= k < n ==> pos[k] < 8
  }

  lemma NameableByRank(ks: seq<int>)
    requires |ks| <= MAX_ARGS
    ensures VectorSourcesNameable(ks) <==> AllBelow8(SsePos(ks, |ks|), Min(SseRank(ks, |ks|), 8))
  {
    var n := Min(SseRank(ks, |ks|), 8);
    if VectorSourcesNameable(ks) {
      forall k | 0 <= k < n ensures SsePos(ks, |ks|)[k] < 8 {
        SsePosAt(ks, |ks|, k);
      }
    } else {
      var i: nat :| i < |ks| && !IntClass(ks[i]) && SseRank(ks, i) < 8 && i >= 8;
      SsePosOf(ks, |ks|, i);
      assert SsePos(ks, |ks|)[SseRank(ks, i)] >= 8;
    }
  }

  lemma SamePrefixSuffix<T>(a: seq<T>, x: seq<T>, y: seq<T>, b: seq<T>, c: seq<T>)
    requires |x| == |y|
    ensures a + x + b + c == a + y + b + c <==> x == y
  {
    if a + x + b + c == a + y + b + c {
      assert x == (a + x + b + c)[|a|..|a| + |x|];
      assert y == (a + y + b + c)[|a|..|a| + |x|];
    }
  }

  lemma SameLast<T>(a: seq<T>, x: T, b: seq<T>, y: T)
    requires |a| == |b|
    ensures a + [x] == b + [y] <==> a == b && x == y
  {
    if a + [x] == b + [y] {
      assert a == (a + [x])[..|a|];
      assert b == (b + [y])[..|a|];
      assert (a + [x])[|a|] == (b + [y])[|a|];
    }
  }

  lemma {:induction false} XmmTruncation(spos: seq<nat>, n: nat)
    requires Positions(spos) && n <= |spos| && n <= 8
    ensures AsEncodedAll(XmmMoves(spos, n)) == XmmMoves(spos, n) <==> AllBelow8(spos, n)
  {
    if n > 0 {
      XmmTruncation(spos, n - 1);
      AsEncodedXmm(spos, n - 1);
      var front := XmmMoves(spos, n - 1);
      if spos[n - 1] != n - 1 {
        SameLast(AsEncodedAll(front), MovXmm(n - 1, Low3(spos[n - 1])), front, MovXmm(n - 1, spos[n - 1]));
      } else {
        assert AsEncodedAll(front) + [] == AsEncodedAll(front);
        assert XmmMoves(spos, n) == front;
      }
    }
  }

  // ----- Return

  /** A System V callee returns with RSP where it was and the caller's frame above its argument area
      untouched; here only the cell that holds the stub's own return address matters. */
  ghost predicate CalleeReturned(e: State, c: State, r: State) {
    Sp(r) == Sp(c) && At(r, Sp(e), 0) == At(c, Sp(e), 0)
  }

  lemma CleanupRun(d: int, S: int, r: State)
    requires 0 <= S < WORDS && S % 8 == 0 && Sp(r) == Wrap(S - d)
    ensures Run([AddRsp(d), Ret], r) == Returned(At(r, S, 0), SetReg(r, RSP, Wrap(S + 8)))
  {
    WrapOfWrap(S - d, d);
    var r1 := SetReg(r, RSP, S);
    assert Exec(AddRsp(d), r) == Some(r1);
    assert [AddRsp(d), Ret][1..] == [Ret];
    assert Run([Ret], r1) == Returned(At(r1, S, 0), SetReg(r1, RSP, Wrap(S + 8)));
    assert SetReg(r1, RSP, Wrap(S + 8)) == SetReg(r, RSP, Wrap(S + 8));
  }

  lemma EntryCell(sp: int)
    requires sp % 16 == 8
    ensures sp % 8 == 0
  {
  }

  lemma ReturnsFromCall(ks: seq<int>, target: Word, e: State, o: Outcome, r: State)
    requires |ks| <= MAX_ARGS && AtEntry(e)
    requires ReachedCall(ks, target, e, o) && CalleeReturned(e, o.at, r)
    ensures Run(o.rest, r) == Returned(At(e, Sp(e), 0), SetReg(r, RSP, Wrap(Sp(e) + 8)))
  {
    var d := Depth(ks);
    assert o.rest == [AddRsp(d), Ret];
    assert Sp(r) == Wrap(Sp(e) - d) && At(r, Sp(e), 0) == At(e, Sp(e), 0);
    EntryCell(Sp(e));
    CleanupRun(d, Sp(e), r);
  }

  /** After any such return the stub returns to its own caller with RSP restored, and hands on every
      other register, the vector registers and memory exactly as the callee left them. */
  lemma StubReturns(ks: seq<int>, target: Word, e: State, r: State)
    requires |ks| <= MAX_ARGS && AtEntry(e)
    requires RunStub(ks, target, e).Called? && CalleeReturned(e, RunStub(ks, target, e).at, r)
    ensures Run(RunStub(ks, target, e).rest, r) == Returned(At(e, Sp(e), 0), SetReg(r, RSP, Wrap(Sp(e) + 8)))
  {
    ReachesCall(ks, target, e);
    ReturnsFromCall(ks, target, e, RunStub(ks, target, e), r);
  }

  /** A return that respects every System V obligation to its caller. */
  ghost predicate Conforms(e: State, o: Outcome, r: State) {
    o.Called? && CalleeReturned(e, o.at, r) && KeepsNonVolatile(o.at, r)
  }

  /** Some conforming return leaves the stub's own caller nothing but RSP, RBX, RBP and R12 to R15: not
      RDI, RSI and XMM6 to XMM15, which Microsoft callers expect to keep. */
  lemma LosesTheRest(ks: seq<int>, target: Word, e: State) returns (r: State)
    requires |ks| <= MAX_ARGS && AtEntry(e)
    ensures var o := RunStub(ks, target, e);
      Conforms(e, o, r) && Run(o.rest, r).Returned? && NothingElseKept(e, Run(o.rest, r).at)
  {
    hide RunStub, Run, ReadyToCall;
    ReachesCall(ks, target, e);
    r := Scrambled(e, RunStub(ks, target, e).at);
    StubReturns(ks, target, e, r);
  }

  lemma KeepsKept(ks: seq<int>, target: Word, e: State, r: State)
    requires |ks| <= MAX_ARGS && AtEntry(e) && Conforms(e, RunStub(ks, target, e), r)
    ensures Run(RunStub(ks, target, e).rest, r).Returned?
    ensures KeepsNonVolatile(e, Run(RunStub(ks, target, e).rest, r).at)
  {
    hide RunStub, Run;
    ReachesCall(ks, target, e);
    StubReturns(ks, target, e, r);
    KeepsThrough(e, RunStub(ks, target, e).at, r);
  }

  /** Exactly which general registers the stub's caller gets back: one other than RSP survives every
      conforming return if and only if it is RBX, RBP or one of R12 to R15. */
  lemma RegisterSurvivesIff(ks: seq<int>, target: Word, e: State, k: RegNo)
    requires |ks| <= MAX_ARGS && AtEntry(e) && k != RSP
    ensures var o := RunStub(ks, target, e);
      (forall r: State :: Conforms(e, o, r) ==> Run(o.rest, r).Returned? && Run(o.rest, r).at.gpr[k] == e.gpr[k])
      <==> k in KEPT
  {
    hide RunStub, Run, Conforms, ReadyToCall;
    ReachesCall(ks, target, e);
    if k in KEPT {
      forall r: State | Conforms(e, RunStub(ks, target, e), r)
        ensures Run(RunStub(ks, target, e).rest, r).Returned?
        ensures Run(RunStub(ks, target, e).rest, r).at.gpr[k] == e.gpr[k]
      {
        KeepsKept(ks, target, e, r);
      }
    } else {
      var r := LosesTheRest(ks, target, e);
    }
  }
}
