/** The two calling conventions from the outside: where a Microsoft caller leaves its arguments before the
    call, where a System V function looks for its own, and what a stub between them has to achieve. */
module AbiLaws {
  import opened Bytes
  import opened Machine
  import opened Codec
  import opened CallAbi
  import opened StubCode
  import opened StubRun
  import opened StubCorrectness

  // ----- The caller

  predicate Integer(k: int) { k == 0 || k == 3 }

  /** Argument i as the caller has it ready: the first four in registers by position, the others in
      consecutive eightbytes from the stack pointer on, above room for the first four. */
  function CallerHas(ks: seq<int>, i: nat, c: State): Word
    requires i < |ks|
  {
    if i >= 4 then At(c, Sp(c), 8 * i)
    else if Integer(ks[i]) then c.gpr[[RCX, RDX, R8, R9][i]]
    else c.xmm[i].lo
  }

  /** What the model takes for the passed value, once the return address is pushed, is what the caller has
      ready. */
  lemma CallerSide(ks: seq<int>, i: nat, c: State, ret: Word)
    requires i < |ks| <= MAX_ARGS
    ensures MsValue(ks, i, Push(c, ret)) == CallerHas(ks, i, c)
  {
    hide Wrap, At, Push;
    if i >= 4 {
      StackArgument(c, ret, i);
    } else {
      PushKeepsRegisters(c, ret);
    }
  }

  /** The call itself: a stack argument lies eight octets further from the stack pointer. */
  lemma StackArgument(c: State, ret: Word, i: nat)
    requires 4 <= i < 12
    ensures At(Push(c, ret), Sp(Push(c, ret)), MsSlot(i)) == At(c, Sp(c), 8 * i)
    ensures At(Push(c, ret), Sp(Push(c, ret)), 8 + 8 * i) == At(c, Sp(c), 8 * i)
  {
    hide At, Push, Wrap;
    SpWraps(c);
    PushedCell(c, Sp(c), 0, ret);
    AtThroughSp(Push(c, ret), Sp(c), -8, 8 + 8 * i);
    OtherCell(c, Sp(c), 0, ret, 8 * i);
  }

  lemma SpWraps(s: State)
    ensures Sp(s) == Wrap(Sp(s))
  {
  }

  lemma PushKeepsRegisters(c: State, ret: Word)
    ensures Push(c, ret).xmm == c.xmm && forall k: RegNo :: k != RSP ==> Push(c, ret).gpr[k] == c.gpr[k]
  {
  }

  // ----- The callee

  function IntegersBefore(ks: seq<int>, i: nat): nat
    requires i <= |ks|
  {
    |set j | 0 <= j < i && Integer(ks[j])|
  }

  function VectorsBefore(ks: seq<int>, i: nat): nat
    requires i <= |ks|
  {
    |set j | 0 <= j < i && !Integer(ks[j])|
  }

  /** No register of its class is left: there are six and eight of them. */
  predicate OnStack(ks: seq<int>, i: nat)
    requires i < |ks|
  {
    if Integer(ks[i]) then IntegersBefore(ks, i) >= 6 else VectorsBefore(ks, i) >= 8
  }

  function OnStackBefore(ks: seq<int>, i: nat): nat
    requires i <= |ks|
  {
    |set j | 0 <= j < i && OnStack(ks, j)|
  }

  /** Argument i as a System V function finds it at its first instruction. */
  function CalleeReads(ks: seq<int>, i: nat, s: State): Word
    requires i < |ks|
  {
    if OnStack(ks, i) then At(s, Sp(s), 8 + 8 * OnStackBefore(ks, i))
    else if Integer(ks[i]) then s.gpr[[RDI, RSI, RDX, RCX, R8, R9][IntegersBefore(ks, i)]]
    else s.xmm[VectorsBefore(ks, i)].lo
  }

  lemma IntegersGrow(ks: seq<int>, i: nat)
    requires i < |ks|
    ensures IntegersBefore(ks, i + 1) == IntegersBefore(ks, i) + if Integer(ks[i]) then 1 else 0
  {
    var a, b := set j | 0 <= j < i && Integer(ks[j]), set j | 0 <= j < i + 1 && Integer(ks[j]);
    assert b == if Integer(ks[i]) then a + {i} else a;
  }

  lemma VectorsGrow(ks: seq<int>, i: nat)
    requires i < |ks|
    ensures VectorsBefore(ks, i + 1) == VectorsBefore(ks, i) + if Integer(ks[i]) then 0 else 1
  {
    var a, b := set j | 0 <= j < i && !Integer(ks[j]), set j | 0 <= j < i + 1 && !Integer(ks[j]);
    assert b == if Integer(ks[i]) then a else a + {i};
  }

  lemma {:induction false} RanksCount(ks: seq<int>, i: nat)
    requires i <= |ks|
    ensures IntRank(ks, i) == IntegersBefore(ks, i) && SseRank(ks, i) == VectorsBefore(ks, i)
  {
    if i == 0 {
      NothingBefore(ks);
    } else {
      hide IntegersBefore, VectorsBefore;
      RanksCount(ks, i - 1);
      IntegersGrow(ks, i - 1);
      VectorsGrow(ks, i - 1);
    }
  }

  lemma NothingBefore(ks: seq<int>)
    ensures IntegersBefore(ks, 0) == 0 && VectorsBefore(ks, 0) == 0
  {
  }

  lemma OnStackIs(ks: seq<int>, i: nat)
    requires i < |ks|
    ensures InMemory(ks, i) <==> OnStack(ks, i)
  {
    hide IntRank, SseRank, IntegersBefore, VectorsBefore;
    RanksCount(ks, i);
  }

  lemma {:induction false} MemCounts(ks: seq<int>, i: nat)
    requires i <= |ks|
    ensures MemRank(ks, i) == OnStackBefore(ks, i)
  {
    hide OnStack, InMemory;
    if i > 0 {
      MemCounts(ks, i - 1);
      OnStackIs(ks, i - 1);
      var a, a' := set j | 0 <= j < i && OnStack(ks, j), set j | 0 <= j < i - 1 && OnStack(ks, j);
      if OnStack(ks, i - 1) {
        assert a == a' + {i - 1};
      } else {
        assert a == a';
      }
    }
  }

  /** What the model takes for the received value is what a System V function reads. */
  lemma CalleeSide(ks: seq<int>, i: nat, s: State)
    requires i < |ks|
    ensures SysvValue(ks, i, s) == CalleeReads(ks, i, s)
  {
    hide IntRank, SseRank, MemRank, IntegersBefore, VectorsBefore, OnStackBefore, At;
    RanksCount(ks, i);
    MemCounts(ks, i);
    OnStackIs(ks, i);
  }

  // ----- From the caller to the callee

  /** The stub calls its target, and the target reads argument i, in its significant bits, as the caller
      has it. */
  ghost predicate Passed(ks: seq<int>, target: Word, c: State, ret: Word, inner: Word, i: nat)
    requires i < |ks| <= MAX_ARGS
  {
    var o := RunStub(ks, target, Push(c, ret));
    && o.Called? && o.target == target
    && Significant(ks[i], CalleeReads(ks, i, Push(o.at, inner))) == Significant(ks[i], CallerHas(ks, i, c))
  }

  /** At a call RSP is 0 modulo 16. */
  predicate AtCall(c: State) { Sp(c) % 16 == 0 }

  lemma EntryAligned(c: State, ret: Word)
    requires AtCall(c)
    ensures AtEntry(Push(c, ret))
  {
    WrapAligned(Sp(c) - 8);
    MinusEight(Sp(c));
  }

  lemma MinusEight(x: int)
    requires x % 16 == 0
    ensures (x - 8) % 16 == 8
  {
    UniqueRemainder(x - 8, 16, x / 16 - 1, 8);
  }

  /** INTEGER arguments, arguments the callee takes from the stack, and vector arguments among the first
      four positions. */
  predicate Passable(ks: seq<int>, i: nat)
    requires i < |ks|
  {
    Integer(ks[i]) || i < 4 || VectorsBefore(ks, i) >= 8
  }

  lemma PassableIs(ks: seq<int>, i: nat)
    requires i < |ks|
    ensures Passable(ks, i) <==> Covered(ks, i)
  {
    hide SseRank, VectorsBefore;
    RanksCount(ks, i);
  }

  lemma PassableArrives(ks: seq<int>, target: Word, c: State, ret: Word, inner: Word, i: nat)
    requires i < |ks| <= MAX_ARGS && Passable(ks, i) && AtCall(c)
    ensures Passed(ks, target, c, ret, inner, i)
  {
    hide RunStub, CallerHas, CalleeReads, Significant, MsValue, SysvValue, Push, Covered, Passable, AtEntry, AtCall;
    PassableIs(ks, i);
    EntryAligned(c, ret);
    ArgumentDelivered(ks, target, Push(c, ret), inner, i);
    CallerSide(ks, i, c, ret);
    CalleeSide(ks, i, Push(RunStub(ks, target, Push(c, ret)).at, inner));
  }

  /** A caller whose vector registers are zero and whose stack argument i is one. */
  lemma HidingCaller(i: nat, ret: Word) returns (c: State)
    requires 4 <= i < 12
    ensures AtCall(c) && HidesArgument(Push(c, ret), i)
  {
    c := Cpu(seq(16, k => 16), seq(16, k => Xmm(0, 0)), map[16 + 8 * i := 1]);
    StackArgument(c, ret, i);
    EntryAligned(c, ret);
    PushKeepsRegisters(c, ret);
  }

  lemma ImpassableIsLost(ks: seq<int>, target: Word, ret: Word, inner: Word, i: nat) returns (c: State)
    requires i < |ks| <= MAX_ARGS && !Passable(ks, i)
    ensures AtCall(c) && !Passed(ks, target, c, ret, inner, i)
  {
    hide RunStub, CallerHas, CalleeReads, Significant, MsValue, SysvValue, Push, Covered, HidesArgument, AtCall;
    PassableIs(ks, i);
    c := HidingCaller(i, ret);
    UncoveredIsLost(ks, target, Push(c, ret), inner, i);
    CallerSide(ks, i, c, ret);
    if RunStub(ks, target, Push(c, ret)).Called? {
      CalleeSide(ks, i, Push(RunStub(ks, target, Push(c, ret)).at, inner));
    }
  }

  /** For every signature: a System V function called through the stub reads argument i as its Microsoft
      caller has it, from every caller state, if and only if it is an INTEGER argument, at one of the first
      four positions, or a vector argument with eight others before it. */
  lemma PassedIff(ks: seq<int>, target: Word, ret: Word, inner: Word, i: nat)
    requires i < |ks| <= 12
    ensures (forall c: State :: AtCall(c) ==> Passed(ks, target, c, ret, inner, i)) <==>
      Integer(ks[i]) || i < 4 || VectorsBefore(ks, i) >= 8
  {
    hide Passed, AtCall, Integer, VectorsBefore;
    if Passable(ks, i) {
      forall c: State | AtCall(c) ensures Passed(ks, target, c, ret, inner, i) {
        PassableArrives(ks, target, c, ret, inner, i);
      }
    } else {
      var c := ImpassableIsLost(ks, target, ret, inner, i);
    }
  }

  /** A stack argument of the caller that arrives is the eightbyte at its place above the stub's own return
      address. */
  lemma StackArgumentArrives(ks: seq<int>, target: Word, e: State, inner: Word, i: nat)
    requires 4 <= i < |ks| <= 12 && Passable(ks, i) && AtEntry(e)
    ensures var o := RunStub(ks, target, e);
      o.Called? && o.target == target && CalleeReads(ks, i, Push(o.at, inner)) == At(e, Sp(e), 8 + 8 * i)
  {
    hide RunStub, CalleeReads, SysvValue, Push, Covered, Passable, At;
    PassableIs(ks, i);
    ArgumentDelivered(ks, target, e, inner, i);
    CalleeSide(ks, i, Push(RunStub(ks, target, e).at, inner));
  }
}
