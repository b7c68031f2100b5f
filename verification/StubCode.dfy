/** The instruction list a typed stub consists of, as a function of the signature. */
module StubCode {
  import opened Bytes
  import opened Machine
  import opened Codec
  import opened CallAbi

  /** RCX, RDX and R8 are copied out of the way; R9 is consumed before it is overwritten. */
  const SAVES: seq<Instr> := [MovReg(R10, RCX), MovReg(R11, RDX), MovReg(RAX, R8)]

  const SAVED: seq<RegNo> := [R10, R11, RAX, R9]

  /** Fetch of the Microsoft argument i into the System V integer register j. */
  function GprMove(j: nat, i: nat): Instr
    requires j < 6
  {
    if i < 4 then MovReg(SV_GPR[j], SAVED[i]) else LoadRsp(SV_GPR[j], MsSlot(i))
  }

  function GprMoves(ipos: seq<nat>, n: nat): (code: seq<Instr>)
    requires n <= |ipos| && n <= 6
    ensures |code| == n
    ensures forall k :: 0 <= k < |code| ==> !code[k].MovXmm?
  {
    if n == 0 then [] else GprMoves(ipos, n - 1) + [GprMove(n - 1, ipos[n - 1])]
  }

  /** Vector moves are always register to register, whatever the Microsoft position. */
  function XmmMoves(spos: seq<nat>, n: nat): (code: seq<Instr>)
    requires n <= |spos| && n <= 8
    requires forall k :: 0 <= k < |spos| ==> spos[k] < MAX_ARGS
    ensures |code| <= n
  {
    if n == 0 then [] else
      XmmMoves(spos, n - 1) + if spos[n - 1] != n - 1 then [MovXmm(n - 1, spos[n - 1])] else []
  }

  function PadFor(nstk: nat): (pad: nat)
    ensures pad == 0 || pad == 8
  {
    if nstk % 2 == 0 then 8 else 0
  }

  function PadCode(pad: nat): seq<Instr> {
    if pad != 0 then [SubRsp(pad)] else []
  }

  /** The k-th push, counting from the last memory argument. */
  function PushOf(stk: seq<nat>, pad: nat, k: nat): Instr
    requires k < |stk|
  {
    PushRsp(MsSlot(stk[|stk| - 1 - k]) + pad + 8 * k)
  }

  function Pushes(stk: seq<nat>, pad: nat, n: nat): (code: seq<Instr>)
    requires n <= |stk|
    ensures |code| == n
    ensures forall k :: 0 <= k < |code| ==> !code[k].MovXmm?
  {
    if n == 0 then [] else Pushes(stk, pad, n - 1) + [PushOf(stk, pad, n - 1)]
  }

  function Min(a: nat, b: nat): nat { if a < b then a else b }

  /** The integer argument registers loaded. */
  function GprCode(ks: seq<int>): seq<Instr>
    requires |ks| <= MAX_ARGS
  {
    SAVES + GprMoves(IntPos(ks, |ks|), Min(IntRank(ks, |ks|), 6))
  }

  /** The vector argument registers loaded. */
  function XmmCode(ks: seq<int>): seq<Instr>
    requires |ks| <= MAX_ARGS
  {
    SsePosBounded(ks);
    XmmMoves(SsePos(ks, |ks|), Min(SseRank(ks, |ks|), 8))
  }

  function StackCode(ks: seq<int>): seq<Instr>
    requires |ks| <= MAX_ARGS
  {
    var nstk := MemRank(ks, |ks|);
    PadCode(PadFor(nstk)) + Pushes(MemPos(ks, |ks|), PadFor(nstk), nstk)
  }

  function Cleanup(ks: seq<int>): seq<Instr> {
    [AddRsp(8 * MemRank(ks, |ks|) + PadFor(MemRank(ks, |ks|))), Ret]
  }

  /** The whole stub, as the emitter intends it. */
  function Stub(ks: seq<int>, target: Word): seq<Instr>
    requires |ks| <= MAX_ARGS
  {
    GprCode(ks) + XmmCode(ks) + StackCode(ks) + ([MovImm(RAX, target), CallReg(RAX)] + Cleanup(ks))
  }

  function StubBytes(ks: seq<int>, target: Word): seq<byte>
    requires |ks| <= MAX_ARGS
  {
    EncodeAll(Stub(ks, target))
  }

  lemma SsePosBounded(ks: seq<int>)
    requires |ks| <= MAX_ARGS
    ensures forall k :: 0 <= k < |SsePos(ks, |ks|)| ==> k <= SsePos(ks, |ks|)[k] < |ks|
  {
    forall k | 0 <= k < |SsePos(ks, |ks|)| ensures k <= SsePos(ks, |ks|)[k] < |ks| {
      SsePosAt(ks, |ks|, k);
    }
  }

  // ----- The instruction list is encodable, and short

  /** Every instruction is within the ranges its encoder is faithful for, with stack displacements
      in the one-octet form. */
  predicate Compact(i: Instr) {
    && Encodable(i)
    && (i.LoadRsp? ==> i.disp < 128)
    && (i.PushRsp? ==> i.disp < 128)
  }

  predicate AllCompact(code: seq<Instr>) {
    code == [] || (AllCompact(code[..|code| - 1]) && Compact(AsEncoded(code[|code| - 1])))
  }

  lemma {:induction false} AllCompactAppend(a: seq<Instr>, b: seq<Instr>)
    requires AllCompact(a) && AllCompact(b)
    ensures AllCompact(a + b)
    decreases |b|
  {
    if b == [] {
      assert a + b == a;
    } else {
      AllCompactAppend(a, b[..|b| - 1]);
      assert (a + b)[..|a + b| - 1] == a + b[..|b| - 1];
    }
  }

  lemma {:induction false} AllCompactEach(code: seq<Instr>, i: Instr)
    requires AllCompact(code) && i in code
    ensures Compact(AsEncoded(i))
    decreases |code|
  {
    if i != code[|code| - 1] {
      assert code == code[..|code| - 1] + [code[|code| - 1]];
      AllCompactEach(code[..|code| - 1], i);
    }
  }

  /** A code list whose instructions are all compact and whose encoding takes at most `size` octets. */
  predicate Fits(code: seq<Instr>, size: int) {
    AllCompact(code) && |EncodeAll(code)| <= size
  }

  lemma FitsAppend(a: seq<Instr>, n: int, b: seq<Instr>, m: int)
    requires Fits(a, n) && Fits(b, m)
    ensures Fits(a + b, n + m)
  {
    AllCompactAppend(a, b);
    EncodeAllAppend(a, b);
  }

  lemma FitsOne(i: Instr)
    requires Compact(AsEncoded(i))
    ensures Fits([i], |Encode(i)|)
  {
    EncodeOne(i);
    assert [i][..0] == [];
  }

  lemma GprMoveCompact(j: nat, i: nat)
    requires j < 6 && i < MAX_ARGS
    ensures var m := GprMove(j, i); AsEncoded(m) == m && Compact(m) && |Encode(m)| <= 5
  {
    if i >= 4 {
      assert 0x28 <= MsSlot(i) < 128;
      assert Encode(GprMove(j, i)) == EncLoadRsp(SV_GPR[j], MsSlot(i));
    } else {
      assert Encode(GprMove(j, i)) == EncMovReg(SV_GPR[j], SAVED[i]);
    }
  }

  lemma {:induction false} GprMovesFit(ks: seq<int>, n: nat)
    requires |ks| <= MAX_ARGS && n <= IntRank(ks, |ks|) && n <= 6
    ensures Fits(GprMoves(IntPos(ks, |ks|), n), 5 * n)
  {
    if n > 0 {
      GprMovesFit(ks, n - 1);
      IntPosAt(ks, |ks|, n - 1);
      var i := IntPos(ks, |ks|)[n - 1];
      GprMoveCompact(n - 1, i);
      FitsOne(GprMove(n - 1, i));
      FitsAppend(GprMoves(IntPos(ks, |ks|), n - 1), 5 * n - 5, [GprMove(n - 1, i)], 5);
    }
  }

  lemma {:induction false} XmmMovesFit(spos: seq<nat>, n: nat)
    requires n <= |spos| && n <= 8
    requires forall k :: 0 <= k < |spos| ==> k <= spos[k] < MAX_ARGS
    ensures Fits(XmmMoves(spos, n), 3 * n)
  {
    if n > 0 {
      XmmMovesFit(spos, n - 1);
      if spos[n - 1] != n - 1 {
        var i := MovXmm(n - 1, spos[n - 1]);
        FitsOne(i);
        FitsAppend(XmmMoves(spos, n - 1), 3 * n - 3, [i], 3);
      } else {
        assert XmmMoves(spos, n) == XmmMoves(spos, n - 1);
      }
    }
  }

  lemma PushCompact(ks: seq<int>, pad: nat, k: nat)
    requires |ks| <= MAX_ARGS && k < MemRank(ks, |ks|) && (pad == 0 || pad == 8)
    ensures var i := PushOf(MemPos(ks, |ks|), pad, k); Compact(i) && |Encode(i)| == 4
  {
    var stk := MemPos(ks, |ks|);
    MemPosAt(ks, |ks|, |stk| - 1 - k);
    var disp := MsSlot(stk[|stk| - 1 - k]) + pad + 8 * k;
    assert 0 <= disp < 128;
    assert Encode(PushRsp(disp)) == EncPushRsp(disp);
  }

  lemma {:induction false} PushesFit(ks: seq<int>, pad: nat, n: nat)
    requires |ks| <= MAX_ARGS && n <= MemRank(ks, |ks|) && (pad == 0 || pad == 8)
    ensures Fits(Pushes(MemPos(ks, |ks|), pad, n), 4 * n)
  {
    if n > 0 {
      PushesFit(ks, pad, n - 1);
      var stk := MemPos(ks, |ks|);
      PushCompact(ks, pad, n - 1);
      var push := PushOf(stk, pad, n - 1);
      FitsOne(push);
      FitsAppend(Pushes(stk, pad, n - 1), 4 * n - 4, [push], 4);
    }
  }

  lemma TailFits(target: Word, n: nat)
    requires n < 128
    ensures Fits([MovImm(RAX, target), CallReg(RAX)] + [AddRsp(n), Ret], 17)
  {
    FitsOne(MovImm(RAX, target));
    FitsOne(CallReg(RAX));
    FitsOne(AddRsp(n));
    FitsOne(Ret);
    FitsAppend([MovImm(RAX, target)], 10, [CallReg(RAX)], 2);
    FitsAppend([AddRsp(n)], 4, [Ret], 1);
    assert [MovImm(RAX, target), CallReg(RAX)] == [MovImm(RAX, target)] + [CallReg(RAX)];
    assert [AddRsp(n), Ret] == [AddRsp(n)] + [Ret];
    FitsAppend([MovImm(RAX, target), CallReg(RAX)], 12, [AddRsp(n), Ret], 5);
  }

  lemma SavesFit()
    ensures Fits(SAVES, 9)
  {
    FitsOne(SAVES[0]);
    FitsOne(SAVES[1]);
    FitsOne(SAVES[2]);
    FitsAppend([SAVES[0]], 3, [SAVES[1]], 3);
    FitsAppend([SAVES[0]] + [SAVES[1]], 6, [SAVES[2]], 3);
    assert SAVES == [SAVES[0]] + [SAVES[1]] + [SAVES[2]];
  }

  lemma PadFits(nstk: nat)
    ensures Fits(PadCode(PadFor(nstk)), 4)
  {
    if PadFor(nstk) != 0 {
      FitsOne(SubRsp(PadFor(nstk)));
    }
  }

  lemma SavesThenFit(code: seq<Instr>, size: int)
    requires Fits(code, size)
    ensures Fits(SAVES + code, 9 + size)
  {
    SavesFit();
    FitsAppend(SAVES, 9, code, size);
  }

  lemma GprCodeFits(ks: seq<int>)
    requires |ks| <= MAX_ARGS
    ensures Fits(GprCode(ks), 9 + 5 * Min(IntRank(ks, |ks|), 6))
  {
    var n := Min(IntRank(ks, |ks|), 6);
    GprMovesFit(ks, n);
    SavesThenFit(GprMoves(IntPos(ks, |ks|), n), 5 * n);
  }

  lemma XmmCodeFits(ks: seq<int>)
    requires |ks| <= MAX_ARGS
    ensures Fits(XmmCode(ks), 3 * Min(SseRank(ks, |ks|), 8))
  {
    SsePosBounded(ks);
    XmmMovesFit(SsePos(ks, |ks|), Min(SseRank(ks, |ks|), 8));
  }

  lemma StackCodeFits(ks: seq<int>)
    requires |ks| <= MAX_ARGS
    ensures Fits(StackCode(ks), 4 + 4 * MemRank(ks, |ks|))
    ensures 8 * MemRank(ks, |ks|) + PadFor(MemRank(ks, |ks|)) < 128
  {
    var nstk := MemRank(ks, |ks|);
    PadFits(nstk);
    PushesFit(ks, PadFor(nstk), nstk);
    MemRankBelow(ks, |ks|);
    FitsAppend(PadCode(PadFor(nstk)), 4, Pushes(MemPos(ks, |ks|), PadFor(nstk), nstk), 4 * nstk);
  }

  lemma StubFits(ks: seq<int>, target: Word)
    requires |ks| <= MAX_ARGS
    ensures Fits(Stub(ks, target), 30 + 5 * |ks|)
  {
    var gpr, xmm, stack := GprCode(ks), XmmCode(ks), StackCode(ks);
    var tail := [MovImm(RAX, target), CallReg(RAX)] + Cleanup(ks);
    var ngpr, nxmm := 9 + 5 * Min(IntRank(ks, |ks|), 6), 3 * Min(SseRank(ks, |ks|), 8);
    var nstack := 4 + 4 * MemRank(ks, |ks|);
    GprCodeFits(ks);
    XmmCodeFits(ks);
    StackCodeFits(ks);
    TailFits(target, 8 * MemRank(ks, |ks|) + PadFor(MemRank(ks, |ks|)));
    FitsAppend(gpr, ngpr, xmm, nxmm);
    FitsAppend(gpr + xmm, ngpr + nxmm, stack, nstack);
    FitsAppend(gpr + xmm + stack, ngpr + nxmm + nstack, tail, 17);
    var nregs := ngpr + nxmm;
    RanksSplit(ks, |ks|);
    assert nregs + nstack + 17 <= 30 + 5 * |ks|;
  }

  /** A stub takes at most 30 + 5 nargs octets, so the 256-octet limit never triggers. */
  lemma StubSize(ks: seq<int>, target: Word)
    requires |ks| <= MAX_ARGS
    ensures 0 < |StubBytes(ks, target)| <= 30 + 5 * |ks| <= 256
  {
    StubFits(ks, target);
    var all := Stub(ks, target);
    assert all[|all| - 1] == Ret;
  }

  /** Each argument is in a register of its class or in memory. */
  lemma {:induction false} RanksSplit(ks: seq<int>, n: nat)
    requires n <= |ks|
    ensures Min(IntRank(ks, n), 6) + Min(SseRank(ks, n), 8) + MemRank(ks, n) == n
  {
    if n > 0 {
      RanksSplit(ks, n - 1);
    }
  }

  /** Decoding the emitted octets gives the intended instructions, except that a vector source
      loses its fourth bit. */
  lemma StubDecodes(ks: seq<int>, target: Word)
    requires |ks| <= MAX_ARGS
    ensures DecodeAll(StubBytes(ks, target)) == Some(AsEncodedAll(Stub(ks, target)))
  {
    StubFits(ks, target);
    var code := Stub(ks, target);
    forall i | i in code ensures Encodable(AsEncoded(i)) {
      AllCompactEach(code, i);
    }
    DecodeEncodeAll(code);
  }
}
