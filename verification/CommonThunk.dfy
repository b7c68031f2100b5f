/** The integer-only thunk of the native host: the hand-written ms2sysv_common, and the trampolines
    make_ms2sysv generates in front of it. */
module CommonThunk {
  import opened Bytes
  import opened Machine
  import opened Codec
  import opened CallAbi
  import opened StubEmitter

  const SAVE: seq<Instr> := [PushReg(RDI), PushReg(RSI)]

  const SHUFFLE: seq<Instr> :=
    [MovReg(RDI, RCX), MovReg(RSI, RDX), MovReg(RAX, R9), MovReg(RDX, R8), MovReg(RCX, RAX)]

  const STACK_ARGS: seq<Instr> := [LoadRsp(R8, 0x38), LoadRsp(R9, 0x40), SubRsp(8)]

  const RESTORE: seq<Instr> := [AddRsp(8), PopReg(RSI), PopReg(RDI), Ret]

  /** ms2sysv_common. */
  const COMMON: seq<Instr> := SAVE + SHUFFLE + STACK_ARGS + ([CallReg(R10)] + RESTORE)

  /** The cell of Microsoft argument 5 or 6, found 16 octets lower once RDI and RSI are pushed. */
  function StackArg(e: State, i: nat): Word {
    At(e, Sp(e), MsSlot(i))
  }

  // ----- Executing the three straight-line parts

  function Saved(e: State): State {
    Push(Push(e, e.gpr[RDI]), e.gpr[RSI])
  }

  /** One more instruction of a list executed. */
  lemma ExecNext(code: seq<Instr>, n: nat, s: State, s1: State, s2: State)
    requires n < |code| && ExecAll(code[..n], s) == Some(s1) && Exec(code[n], s1) == Some(s2)
    ensures ExecAll(code[..n + 1], s) == Some(s2)
  {
    assert code[..n + 1][..n] == code[..n];
  }

  lemma ExecNone(code: seq<Instr>, s: State)
    ensures ExecAll(code[..0], s) == Some(s)
  {
  }

  /** Near the entry RSP, but not one of the two cells below it. */
  predicate OutsideFrame(off: int) { (off < -16 || -8 < off) && -0x1000 < off < 0x1000 }

  /** The cells of the frame: the saved registers below the return address. */
  lemma SaveRun(e: State)
    requires AtEntry(e)
    ensures ExecAll(SAVE, e) == Some(Saved(e))
    ensures Sp(Saved(e)) == Wrap(Sp(e) - 16)
    ensures At(Saved(e), Sp(e), -8) == e.gpr[RDI] && At(Saved(e), Sp(e), -16) == e.gpr[RSI]
    ensures forall off :: OutsideFrame(off) ==> At(Saved(e), Sp(e), off) == At(e, Sp(e), off)
  {
    var base := Sp(e);
    var one := Push(e, e.gpr[RDI]);
    PushedCell(e, base, 0, e.gpr[RDI]);
    PushedCell(one, base, -8, e.gpr[RSI]);
    OtherCell(one, base, -8, e.gpr[RSI], -8);
    WrapAligned(base - 8);
    Aligned8(base);
    ExecNext(SAVE, 0, e, e, one);
    ExecNext(SAVE, 1, e, one, Saved(e));
    assert SAVE[..2] == SAVE;
    forall off | OutsideFrame(off)
      ensures At(Saved(e), base, off) == At(e, base, off)
    {
      OtherCell(e, base, 0, e.gpr[RDI], off);
      OtherCell(one, base, -8, e.gpr[RSI], off);
    }
  }

  lemma Aligned8(sp: int)
    requires sp % 16 == 8
    ensures sp % 8 == 0 && (sp - 8) % 8 == 0 && (sp - 24) % 16 == 0
  {
  }

  lemma MoveExec(d: RegNo, r: RegNo, s: State)
    ensures Exec(MovReg(d, r), s) == Some(SetReg(s, d, s.gpr[r]))
  {
  }

  /** After the register moves: RDI, RSI, RDX and RCX hold what RCX, RDX, R8 and R9 held. */
  lemma ShuffleRun(s: State)
    ensures ExecAll(SHUFFLE, s) == Some(Shuffled(s))
  {
    hide ExecAll, Exec;
    var s1 := SetReg(s, RDI, s.gpr[RCX]);
    var s2 := SetReg(s1, RSI, s1.gpr[RDX]);
    var s3 := SetReg(s2, RAX, s2.gpr[R9]);
    var s4 := SetReg(s3, RDX, s3.gpr[R8]);
    MoveExec(RDI, RCX, s);
    MoveExec(RSI, RDX, s1);
    MoveExec(RAX, R9, s2);
    MoveExec(RDX, R8, s3);
    MoveExec(RCX, RAX, s4);
    ExecNone(SHUFFLE, s);
    ExecNext(SHUFFLE, 0, s, s, s1);
    ExecNext(SHUFFLE, 1, s, s1, s2);
    ExecNext(SHUFFLE, 2, s, s2, s3);
    ExecNext(SHUFFLE, 3, s, s3, s4);
    ExecNext(SHUFFLE, 4, s, s4, Shuffled(s));
    assert SHUFFLE[..5] == SHUFFLE;
  }

  function Shuffled(s: State): State {
    s.(gpr := s.gpr[RDI := s.gpr[RCX]][RSI := s.gpr[RDX]][RAX := s.gpr[R9]][RDX := s.gpr[R8]][RCX := s.gpr[R9]])
  }

  lemma LoadExec(r: RegNo, disp: int, s: State, base: int)
    requires Sp(s) == Wrap(base - 16) && base % 16 == 8 && disp % 8 == 0
    ensures Exec(LoadRsp(r, disp), s) == Some(SetReg(s, r, At(s, base, disp - 16)))
  {
    hide Wrap, At, Exec;
    AtThroughSp(s, base, -16, disp);
    LoadAligned(base, disp);
    LoadLegal(r, disp, s);
  }

  lemma LoadAligned(base: int, disp: int)
    requires base % 16 == 8 && disp % 8 == 0
    ensures (base - 16 + disp) % 8 == 0
  {
    UniqueRemainder(base - 16 + disp, 8, 2 * (base / 16) - 1 + disp / 8, 0);
  }

  lemma LoadLegal(r: RegNo, disp: int, s: State)
    requires Wrap(Sp(s) + disp) % 8 == 0
    ensures Exec(LoadRsp(r, disp), s) == Some(SetReg(s, r, At(s, Sp(s), disp)))
  {
    hide Wrap, At;
  }

  lemma SubExec(s: State, base: int)
    requires Sp(s) == Wrap(base - 16)
    ensures Exec(SubRsp(8), s) == Some(SetReg(s, RSP, Wrap(base - 24)))
  {
    WrapOfWrap(base - 16, -8);
  }

  lemma SameCell(a: State, b: State, base: int, off: int)
    requires a.mem == b.mem
    ensures At(a, base, off) == At(b, base, off)
  {
  }

  lemma StackArgsRun(s: State, base: int)
    requires Sp(s) == Wrap(base - 16) && base % 16 == 8
    ensures var r := ExecAll(STACK_ARGS, s);
      && r.Some? && r.value.mem == s.mem && r.value.xmm == s.xmm && Sp(r.value) == Wrap(base - 24)
      && r.value.gpr == s.gpr[R8 := At(s, base, 0x28)][R9 := At(s, base, 0x30)][RSP := Wrap(base - 24)]
  {
    hide ExecAll, Exec, At, Wrap;
    LoadExec(R8, 0x38, s, base);
    var s1 := SetReg(s, R8, At(s, base, 0x28));
    var s2 := SetReg(s1, R9, At(s1, base, 0x30));
    assert At(s1, base, 0x30) == At(s, base, 0x30) by {
      SameCell(s, s1, base, 0x30);
    }
    LoadExec(R9, 0x40, s1, base);
    SubExec(s2, base);
    ExecNone(STACK_ARGS, s);
    ExecNext(STACK_ARGS, 0, s, s, s1);
    ExecNext(STACK_ARGS, 1, s, s1, s2);
    ExecNext(STACK_ARGS, 2, s, s2, SetReg(s2, RSP, Wrap(base - 24)));
    assert STACK_ARGS[..3] == STACK_ARGS;
  }

  // ----- Up to the call

  /** The call made from the entry state e: System V registers filled, the two registers that only the
      Microsoft side keeps saved in the frame; the registers both sides keep, the vector registers and
      the caller's frame untouched. */
  ghost predicate ReadyToCall(e: State, c: State) {
    && c.xmm == e.xmm && Sp(c) == Wrap(Sp(e) - 24) && KeepsNonVolatile(e, c)
    && (forall k :: 0 <= k < 4 ==> c.gpr[SV_GPR[k]] == e.gpr[MS_GPR[k]])
    && c.gpr[R8] == StackArg(e, 4) && c.gpr[R9] == StackArg(e, 5)
    && FrameSaved(e, c)
  }

  ghost predicate FrameSaved(e: State, c: State) {
    && At(c, Sp(e), -8) == e.gpr[RDI] && At(c, Sp(e), -16) == e.gpr[RSI]
    && forall off :: OutsideFrame(off) ==> At(c, Sp(e), off) == At(e, Sp(e), off)
  }

  ghost predicate ReachedCall(e: State, o: Outcome) {
    o.Called? && o.target == e.gpr[R10] && o.rest == RESTORE && ReadyToCall(e, o.at)
  }

  lemma ReachesCall(e: State)
    requires AtEntry(e)
    ensures ReachedCall(e, Run(COMMON, e))
  {
    SaveRun(e);
    var s := Saved(e);
    ShuffleRun(s);
    var m := ExecAll(SHUFFLE, s).value;
    StackArgsRun(m, Sp(e));
    var c := ExecAll(STACK_ARGS, m).value;
    ExecAllAppend(SAVE, SHUFFLE, e);
    ExecAllAppend(SAVE + SHUFFLE, STACK_ARGS, e);
    RunAfter(SAVE + SHUFFLE + STACK_ARGS, [CallReg(R10)] + RESTORE, e);
    CallState(e, m, c);
  }

  lemma CallState(e: State, m: State, c: State)
    requires c.mem == m.mem && c.xmm == m.xmm
    requires m == Shuffled(Saved(e)) && Sp(c) == Wrap(Sp(e) - 24)
    requires c.gpr == m.gpr[R8 := At(m, Sp(e), 0x28)][R9 := At(m, Sp(e), 0x30)][RSP := Wrap(Sp(e) - 24)]
    requires AtEntry(e)
    ensures ReadyToCall(e, c) && c.gpr[R10] == e.gpr[R10]
  {
    hide Saved, ExecAll;
    SaveRun(e);
    SavedRegisters(e);
    CallFrame(e, c);
  }

  lemma SavedRegisters(e: State)
    ensures Saved(e).xmm == e.xmm && forall k: RegNo :: k != RSP ==> Saved(e).gpr[k] == e.gpr[k]
  {
  }

  lemma CallFrame(e: State, c: State)
    requires AtEntry(e) && c.mem == Saved(e).mem
    ensures FrameSaved(e, c)
  {
    hide Saved, ExecAll;
    SaveRun(e);
  }

  /** RSP is 0 modulo 16 at the call. */
  lemma CallIsAligned(e: State)
    requires AtEntry(e)
    ensures Run(COMMON, e).Called? && Sp(Run(COMMON, e).at) % 16 == 0
  {
    ReachesCall(e);
    Aligned8(Sp(e));
    WrapAligned(Sp(e) - 24);
  }

  // ----- Exactly which arguments arrive

  /** The rank of argument i in its own class. */
  function ClassRank(ks: seq<int>, i: nat): nat
    requires i < |ks|
  {
    if IntClass(ks[i]) then IntRank(ks, i) else SseRank(ks, i)
  }

  /** The registers and slots the thunk moves are those of argument i in both conventions. */
  predicate Covered(ks: seq<int>, i: nat)
    requires i < |ks|
  {
    ClassRank(ks, i) == i && i < (if IntClass(ks[i]) then 6 else 4)
  }

  ghost predicate Arrives(ks: seq<int>, e: State, ret: Word, i: nat)
    requires i < |ks|
  {
    var o := Run(COMMON, e);
    && o.Called?
    && Significant(ks[i], SysvValue(ks, i, Push(o.at, ret))) == Significant(ks[i], MsValue(ks, i, e))
  }

  /** What the thunk passes where a System V callee looks for argument i. */
  function Passed(ks: seq<int>, e: State, i: nat): Word
    requires i < |ks| && !InMemory(ks, i)
  {
    var r := ClassRank(ks, i);
    if !IntClass(ks[i]) then e.xmm[r].lo else if r < 4 then e.gpr[MS_GPR[r]] else StackArg(e, r)
  }

  lemma RanksBelow(ks: seq<int>, i: nat)
    requires i < |ks|
    ensures ClassRank(ks, i) <= i
    ensures ClassRank(ks, i) == i && i < 6 ==> !InMemory(ks, i)
  {
  }

  lemma CoveredArrives(ks: seq<int>, e: State, ret: Word, i: nat)
    requires i < |ks| && Covered(ks, i) && AtEntry(e)
    ensures Arrives(ks, e, ret, i)
  {
    ReachesCall(e);
    RanksBelow(ks, i);
  }

  /** The entry state in which argument i is one and everything else that is not RSP is zero. */
  predicate OnlyArgument(ks: seq<int>, e: State, i: nat)
    requires i < |ks|
  {
    && AtEntry(e) && MsValue(ks, i, e) == 1
    && (forall k :: 0 <= k < 16 && k != RSP && !(i < 4 && IntClass(ks[i]) && k == MS_GPR[i]) ==> e.gpr[k] == 0)
    && (forall k :: 0 <= k < 16 && !(i < 4 && k == i && !IntClass(ks[i])) ==> e.xmm[k].lo == 0)
    && (forall off :: -0x1000 < off < 0x1000 && off != MsSlot(i) ==> At(e, Sp(e), off) == 0)
    && (i < 4 ==> At(e, Sp(e), MsSlot(i)) == 0)
  }

  lemma OnlyArgumentExists(ks: seq<int>, i: nat) returns (e: State)
    requires i < |ks| <= MAX_ARGS
    ensures OnlyArgument(ks, e, i)
  {
    var gpr: seq<Word> := seq(16, k => if k == RSP then 8 else 0);
    var xmm: seq<Xmm> := seq(16, k => Xmm(0, 0));
    if i >= 4 {
      e := Cpu(gpr, xmm, map[8 + MsSlot(i) := 1]);
      forall off | -0x1000 < off < 0x1000 && off != MsSlot(i) ensures At(e, Sp(e), off) == 0 {
        WrapDistinct(8, off, MsSlot(i));
      }
    } else if IntClass(ks[i]) {
      e := Cpu(gpr[MS_GPR[i] := 1], xmm, map[]);
    } else {
      e := Cpu(gpr, xmm[i := Xmm(1, 0)], map[]);
    }
  }

  lemma UncoveredPassedZero(ks: seq<int>, e: State, i: nat)
    requires i < |ks| <= MAX_ARGS && !Covered(ks, i) && !InMemory(ks, i) && OnlyArgument(ks, e, i)
    ensures Passed(ks, e, i) == 0
  {
    RanksBelow(ks, i);
    var r := ClassRank(ks, i);
    if IntClass(ks[i]) && r < 4 {
      assert i < 4 ==> MS_GPR[r] != MS_GPR[i];
    }
  }

  /** A memory argument's cell is in the thunk's own frame or the caller's shadow space. */
  lemma MemoryPassedZero(ks: seq<int>, e: State, c: State, ret: Word, i: nat)
    requires i < |ks| <= MAX_ARGS && InMemory(ks, i) && OnlyArgument(ks, e, i) && ReadyToCall(e, c)
    ensures SysvValue(ks, i, Push(c, ret)) == 0
  {
    hide Push, Cell, Wrap;
    MemRankBelow(ks, i);
    var base: int, m: int := Sp(e), MemRank(ks, i);
    PushedCell(c, base, -24, ret);
    var off: int := 8 * m - 24;
    OtherCell(c, base, -24, ret, off);
    AtThroughSp(Push(c, ret), base, -32, 8 + 8 * m);
    assert At(c, base, off) == 0;
  }

  lemma UncoveredIsLost(ks: seq<int>, e: State, ret: Word, i: nat)
    requires i < |ks| <= MAX_ARGS && !Covered(ks, i) && OnlyArgument(ks, e, i)
    ensures !Arrives(ks, e, ret, i)
  {
    ReachesCall(e);
    var c := Run(COMMON, e).at;
    if InMemory(ks, i) {
      MemoryPassedZero(ks, e, c, ret, i);
    } else {
      UncoveredPassedZero(ks, e, i);
    }
  }

  /** The thunk delivers argument i from every entry state if and only if all arguments before it
      are of its class and it is among the first six (INTEGER) or four (SSE). In particular it
      delivers all arguments of an all-INTEGER signature of up to six. */
  lemma DeliveredIffCovered(ks: seq<int>, ret: Word, i: nat)
    requires i < |ks| <= MAX_ARGS
    ensures (forall e: State :: AtEntry(e) ==> Arrives(ks, e, ret, i)) <==> Covered(ks, i)
  {
    if Covered(ks, i) {
      forall e: State | AtEntry(e) ensures Arrives(ks, e, ret, i) {
        CoveredArrives(ks, e, ret, i);
      }
    } else {
      var e := OnlyArgumentExists(ks, i);
      UncoveredIsLost(ks, e, ret, i);
    }
  }

  lemma {:induction false} AllIntegerRank(ks: seq<int>, i: nat)
    requires i <= |ks| && forall j :: 0 <= j < |ks| ==> IntClass(ks[j])
    ensures IntRank(ks, i) == i
  {
    if i > 0 {
      AllIntegerRank(ks, i - 1);
    }
  }

  /** All six INTEGER arguments of such a signature arrive. */
  lemma SixIntegersArrive(ks: seq<int>, e: State, ret: Word, i: nat)
    requires i < |ks| <= 6 && AtEntry(e)
    requires forall j :: 0 <= j < |ks| ==> IntClass(ks[j])
    ensures Arrives(ks, e, ret, i)
  {
    AllIntegerRank(ks, i);
    CoveredArrives(ks, e, ret, i);
  }

  // ----- Return

  /** A System V callee returns with RSP where it was and the frame above it untouched. */
  ghost predicate CalleeReturned(e: State, c: State, r: State) {
    && Sp(r) == Sp(c)
    && At(r, Sp(e), -16) == At(c, Sp(e), -16) && At(r, Sp(e), -8) == At(c, Sp(e), -8)
    && At(r, Sp(e), 0) == At(c, Sp(e), 0)
  }

  /** A pop at `depth` octets from the base. */
  lemma PopRun(r: RegNo, tail: seq<Instr>, base: int, depth: int, s: State)
    requires Sp(s) == Wrap(base + depth) && (base + depth) % 8 == 0 && r != RSP
    ensures Run([PopReg(r)] + tail, s) == Run(tail, Popped(r, base, depth, s))
  {
    AtThroughSp(s, base, depth, 0);
    WrapOfWrap(base + depth, 8);
    RunOne(PopReg(r), tail, s);
  }

  function Popped(r: RegNo, base: int, depth: int, s: State): State {
    SetReg(SetReg(s, RSP, Wrap(base + depth + 8)), r, At(s, base, depth))
  }

  lemma ReturnRun(base: int, s: State)
    requires Sp(s) == base && base % 8 == 0
    ensures Run([Ret], s) == Returned(At(s, base, 0), SetReg(s, RSP, Wrap(base + 8)))
  {
  }

  lemma RestoreRun(base: int, r: State)
    requires 0 <= base < WORDS && base % 16 == 8 && Sp(r) == Wrap(base - 24)
    ensures Run(RESTORE, r) == Returned(At(r, base, 0),
      SetReg(SetReg(SetReg(r, RSI, At(r, base, -16)), RDI, At(r, base, -8)), RSP, Wrap(base + 8)))
  {
    hide Run, Wrap, Exec, At;
    Aligned8(base);
    WrapOfWrap(base - 24, 8);
    var r1 := SetReg(r, RSP, Wrap(base - 16));
    var r2 := Popped(RSI, base, -16, r1);
    var r3 := Popped(RDI, base, -8, r2);
    assert Run(RESTORE, r) == Run([PopReg(RSI)] + ([PopReg(RDI)] + [Ret]), r1) by {
      assert RESTORE == [AddRsp(8)] + ([PopReg(RSI)] + ([PopReg(RDI)] + [Ret]));
      AddRun(8, [PopReg(RSI)] + ([PopReg(RDI)] + [Ret]), base - 24, r);
    }
    PopRun(RSI, [PopReg(RDI)] + [Ret], base, -16, r1);
    PopRun(RDI, [Ret], base, -8, r2);
    RestoredState(base, r, r1, r2, r3);
    SameCell(r, r3, base, 0);
    ReturnRun(base, r3);
  }

  lemma AddRun(n: int, tail: seq<Instr>, sp: int, s: State)
    requires Sp(s) == Wrap(sp)
    ensures Run([AddRsp(n)] + tail, s) == Run(tail, SetReg(s, RSP, Wrap(sp + n)))
  {
    WrapOfWrap(sp, n);
    RunOne(AddRsp(n), tail, s);
  }

  lemma RestoredState(base: int, r: State, r1: State, r2: State, r3: State)
    requires 0 <= base < WORDS
    requires r1 == SetReg(r, RSP, Wrap(base - 16))
    requires r2 == Popped(RSI, base, -16, r1) && r3 == Popped(RDI, base, -8, r2)
    ensures Sp(r3) == base && r3.mem == r.mem && Sp(r2) == Wrap(base - 8)
    ensures SetReg(r3, RSP, Wrap(base + 8)) ==
      SetReg(SetReg(SetReg(r, RSI, At(r, base, -16)), RDI, At(r, base, -8)), RSP, Wrap(base + 8))
  {
    assert SetReg(r3, RSP, Wrap(base + 8)).gpr ==
      r.gpr[RSI := At(r, base, -16)][RDI := At(r, base, -8)][RSP := Wrap(base + 8)];
  }

  /** The thunk returns to its caller with RSP, RDI and RSI as on entry, and everything else as the
      callee left it. */
  lemma CommonReturns(e: State, r: State)
    requires AtEntry(e) && Run(COMMON, e).Called? && CalleeReturned(e, Run(COMMON, e).at, r)
    ensures Run(Run(COMMON, e).rest, r) == Returned(At(e, Sp(e), 0),
      SetReg(SetReg(SetReg(r, RSI, e.gpr[RSI]), RDI, e.gpr[RDI]), RSP, Wrap(Sp(e) + 8)))
  {
    ReachesCall(e);
    RestoreRun(Sp(e), r);
  }

  /** A return that respects every System V obligation to its caller. */
  ghost predicate Conforms(e: State, o: Outcome, r: State) {
    o.Called? && CalleeReturned(e, o.at, r) && KeepsNonVolatile(o.at, r)
  }

  /** What the thunk's caller gets back of the general registers. */
  lemma ReturnedRegisters(e: State, r: State, k: RegNo)
    requires AtEntry(e) && Conforms(e, Run(COMMON, e), r) && k != RSP
    ensures var o := Run(Run(COMMON, e).rest, r);
      o.Returned? && o.at.xmm == r.xmm && o.at.gpr[k] == if k in [RDI, RSI] then e.gpr[k] else r.gpr[k]
  {
    hide Run;
    CommonReturns(e, r);
  }

  lemma LosesTheRest(e: State) returns (r: State)
    requires AtEntry(e)
    ensures Conforms(e, Run(COMMON, e), r) && NothingElseKept(e, r)
  {
    hide Run, ReadyToCall;
    ReachesCall(e);
    r := Scrambled(e, Run(COMMON, e).at);
  }

  lemma KeepsKept(e: State, r: State)
    requires AtEntry(e) && Conforms(e, Run(COMMON, e), r)
    ensures KeepsNonVolatile(e, r)
  {
    hide Run;
    ReachesCall(e);
    KeepsThrough(e, Run(COMMON, e).at, r);
  }

  /** Exactly which general registers the thunk's caller gets back: one other than RSP survives every
      conforming return if and only if it is RBX, RBP, RDI, RSI or one of R12 to R15. */
  lemma RegisterSurvivesIff(e: State, k: RegNo)
    requires AtEntry(e) && k != RSP
    ensures var o := Run(COMMON, e);
      (forall r: State :: Conforms(e, o, r) ==> Run(o.rest, r).Returned? && Run(o.rest, r).at.gpr[k] == e.gpr[k])
      <==> k in KEPT + [RDI, RSI]
  {
    hide Run, Conforms, ReadyToCall;
    ReachesCall(e);
    if k in KEPT + [RDI, RSI] {
      forall r: State | Conforms(e, Run(COMMON, e), r)
        ensures Run(Run(COMMON, e).rest, r).Returned? && Run(Run(COMMON, e).rest, r).at.gpr[k] == e.gpr[k]
      {
        KeepsKept(e, r);
        ReturnedRegisters(e, r, k);
      }
    } else {
      var r := LosesTheRest(e);
      ReturnedRegisters(e, r, k);
    }
  }

  /** No vector register survives every conforming return, XMM6 to XMM15 included. */
  lemma NoVectorSurvives(e: State, k: RegNo)
    requires AtEntry(e)
    ensures exists r: State ::
      var o := Run(COMMON, e);
      Conforms(e, o, r) && Run(o.rest, r).Returned? && Run(o.rest, r).at.xmm[k] != e.xmm[k]
  {
    hide Run, Conforms;
    var r := LosesTheRest(e);
    ReturnedRegisters(e, r, RDI);
  }

  // ----- The generated trampolines

  function Trampoline(target: Word, common: Word): seq<Instr> {
    [MovImm(R10, target), MovImm(RAX, common), JmpReg(RAX)]
  }

  function TrampolineBytes(target: Word, common: Word): seq<byte> {
    EncodeAll(Trampoline(target, common))
  }

  /** The state in which the shared code is entered. */
  function Forwarded(target: Word, common: Word, e: State): State {
    SetReg(SetReg(e, R10, target), RAX, common)
  }

  lemma TrampolineRun(target: Word, common: Word, e: State)
    ensures Run(Trampoline(target, common), e) == Jumped(common, Forwarded(target, common, e))
  {
    var code := Trampoline(target, common);
    var e1 := SetReg(e, R10, target);
    RunOne(MovImm(R10, target), code[1..], e);
    RunOne(MovImm(RAX, common), code[2..], e1);
    assert code == [MovImm(R10, target)] + code[1..];
    assert code[1..] == [MovImm(RAX, common)] + code[2..];
    assert code[2..] == [JmpReg(RAX)];
  }

  /** The octets decode to the three instructions. */
  lemma TrampolineDecodes(target: Word, common: Word)
    ensures DecodeAll(TrampolineBytes(target, common)) == Some(Trampoline(target, common))
    ensures |TrampolineBytes(target, common)| == 22
  {
    var code := Trampoline(target, common);
    assert AsEncodedAll(code) == code;
    assert DecodeAll(EncodeAll(code)) == Some(code) by {
      hide DecodeAll, EncodeAll, AsEncodedAll;
      DecodeEncodeAll(code);
    }
    TrampolineSize(target, common);
  }

  /** The octets themselves: two constant loads and a jump through RAX. */
  lemma TrampolineOctets(target: Word, common: Word)
    ensures TrampolineBytes(target, common) ==
      [0x49, 0xBA] + ToLe(target, 8) + [0x48, 0xB8] + ToLe(common, 8) + [0xFF, 0xE0]
  {
    hide EncodeAll, ToLe;
    var a, b, c := MovImm(R10, target), MovImm(RAX, common), JmpReg(RAX);
    EncodeOne(a);
    EncodeSnoc([a], b);
    EncodeSnoc([a, b], c);
    assert [a, b, c] == [a, b] + [c] && [a, b] == [a] + [b];
    assert Encode(a) == [0x49, 0xBA] + ToLe(target, 8) && Encode(b) == [0x48, 0xB8] + ToLe(common, 8);
    ConcatAssoc([0x49, 0xBA] + ToLe(target, 8), [0x48, 0xB8], ToLe(common, 8));
  }

  lemma TrampolineParts(target: Word, common: Word)
    ensures |TrampolineBytes(target, common)| ==
      |Encode(MovImm(R10, target))| + |Encode(MovImm(RAX, common))| + |Encode(JmpReg(RAX))|
  {
    hide EncodeAll, Encode;
    var a, b, c := MovImm(R10, target), MovImm(RAX, common), JmpReg(RAX);
    EncodeOne(a);
    EncodeSnoc([a], b);
    EncodeSnoc([a, b], c);
    assert [a, b, c] == [a, b] + [c] && [a, b] == [a] + [b];
  }

  lemma TrampolineSize(target: Word, common: Word)
    ensures |TrampolineBytes(target, common)| == 22
  {
    hide EncodeAll;
    TrampolineParts(target, common);
  }

  /** The register that carries the target and the scratch register are no argument registers. */
  lemma ForwardedArguments(target: Word, common: Word, ks: seq<int>, e: State, i: nat)
    requires i < |ks|
    ensures MsValue(ks, i, Forwarded(target, common, e)) == MsValue(ks, i, e)
  {
  }

  /** A call through a trampoline reaches its target, aligned, with each covered argument in place. */
  lemma TrampolineDelivers(target: Word, common: Word, ks: seq<int>, e: State, ret: Word, i: nat)
    requires AtEntry(e) && i < |ks| && Covered(ks, i)
    ensures DecodeAll(TrampolineBytes(target, common)).Some?
    ensures var j := Run(DecodeAll(TrampolineBytes(target, common)).value, e);
      j.Jumped? && j.target == common && CallsWith(Run(COMMON, j.at), target, ks, e, ret, i)
  {
    var f := Forwarded(target, common, e);
    TrampolineDecodes(target, common);
    TrampolineRun(target, common, e);
    CoveredArrives(ks, f, ret, i);
    ForwardedArguments(target, common, ks, e, i);
    ReachesCall(f);
    CallIsAligned(f);
  }

  /** The outcome o is an aligned call of the target that passes argument i as e received it. */
  ghost predicate CallsWith(o: Outcome, target: Word, ks: seq<int>, e: State, ret: Word, i: nat)
    requires i < |ks|
  {
    && o.Called? && o.target == target && Sp(o.at) % 16 == 0
    && Significant(ks[i], SysvValue(ks, i, Push(o.at, ret))) == Significant(ks[i], MsValue(ks, i, e))
  }

  method EmitTrampoline(cur: CodeCursor, target: Word, common: Word)
    requires cur.Valid() && cur.code == [] && cur.p + |TrampolineBytes(target, common)| <= cur.buf.Length
    modifies cur`p, cur`out, cur`code, cur.buf
    ensures cur.Valid() && cur.code == Trampoline(target, common)
    ensures cur.p == old(cur.p) + |TrampolineBytes(target, common)|
  {
    hide CodeCursor.Valid, Encode, TrampolineBytes;
    TrampolineParts(target, common);
    cur.EMovabs(R10, target);
    cur.EMovabs(RAX, common);
    cur.EJmpRax();
  }

  /** The host's generated-code region. */
  class HostCode {
    const code: array<byte>
    const common: Word
    var off: nat

    constructor (size: nat, common: Word)
      ensures fresh(code) && code.Length == size && off == 0 && this.common == common
    {
      code := new byte[size](i => 0);
      this.common, off := common, 0;
    }

    /** make_ms2sysv, in a region that the trampoline still fits in: the address of a new trampoline, or None for a
        null target. Nothing else in the region changes. */
    method MakeMs2Sysv(target: Word) returns (at: Option<nat>)
      requires target != 0 ==> off + |TrampolineBytes(target, common)| <= code.Length
      modifies this, code
      ensures at.Some? <==> target != 0
      ensures target == 0 ==> off == old(off) && code[..] == old(code[..])
      ensures target != 0 ==> at.value == old(off)
      ensures target != 0 ==> off == old(off) + |TrampolineBytes(target, common)| <= code.Length
      ensures target != 0 ==> code[..] == Spliced(old(code[..]), at.value, TrampolineBytes(target, common))
    {
      if target == 0 {
        return None;
      }
      var cur := new CodeCursor.At(code, off);
      EmitTrampoline(cur, target, common);
      at := Some(off);
      off := cur.p;
    }
  }
}
