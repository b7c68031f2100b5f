/** Signatures, and where the Microsoft x64 and the System V AMD64 conventions (System V AMD64
    psABI, sections 3.2.2 and 3.2.3) keep each argument. */
module CallAbi {
  import opened Machine

  const K_INT: int := 0
  const K_FLT: int := 1
  const K_DBL: int := 2
  const K_PTR: int := 3

  const MAX_ARGS: nat := 12

  /** The C signature record: an argument count and twelve kind slots, neither range-checked. */
  datatype SigRecord = SigRecord(nargs: int, arg: seq<int>, retIsFloat: int)

  type Sig = s: SigRecord | |s.arg| == MAX_ARGS witness SigRecord(0, seq(12, i => 0), 0)

  predicate IsKind(k: int) {
    k == K_INT || k == K_FLT || k == K_DBL || k == K_PTR
  }

  predicate ValidSig(s: Sig) {
    && 0 <= s.nargs <= MAX_ARGS
    && forall i :: 0 <= i < s.nargs ==> IsKind(s.arg[i])
  }

  function Kinds(s: Sig): (ks: seq<int>)
    requires ValidSig(s)
  {
    s.arg[..s.nargs]
  }

  predicate IntClass(k: int) {
    k == K_INT || k == K_PTR
  }

  // ----- System V classification by rank

  /** How many of the first n arguments are of INTEGER class. */
  function IntRank(ks: seq<int>, n: nat): (r: nat)
    requires n <= |ks|
    ensures r <= n
  {
    if n == 0 then 0 else IntRank(ks, n - 1) + if IntClass(ks[n - 1]) then 1 else 0
  }

  /** How many of the first n arguments are of SSE class. */
  function SseRank(ks: seq<int>, n: nat): (r: nat)
    requires n <= |ks|
    ensures r + IntRank(ks, n) == n
  {
    if n == 0 then 0 else SseRank(ks, n - 1) + if IntClass(ks[n - 1]) then 0 else 1
  }

  /** Passed in memory: no register of its class is left. */
  predicate InMemory(ks: seq<int>, i: nat)
    requires i < |ks|
  {
    if IntClass(ks[i]) then IntRank(ks, i) >= 6 else SseRank(ks, i) >= 8
  }

  /** How many of the first n arguments are passed in memory. */
  function MemRank(ks: seq<int>, n: nat): (r: nat)
    requires n <= |ks|
    ensures r <= n
  {
    if n == 0 then 0 else MemRank(ks, n - 1) + if InMemory(ks, n - 1) then 1 else 0
  }

  const SV_GPR: seq<RegNo> := [RDI, RSI, RDX, RCX, R8, R9]

  const MS_GPR: seq<RegNo> := [RCX, RDX, R8, R9]

  /** The value a System V callee reads for argument i, in its state on entry (return address at
      [rsp]): the register of its rank, or the memory argument area in left-to-right order. */
  function SysvValue(ks: seq<int>, i: nat, callee: State): Word
    requires i < |ks|
  {
    if InMemory(ks, i) then At(callee, Sp(callee), 8 + 8 * MemRank(ks, i))
    else if IntClass(ks[i]) then callee.gpr[SV_GPR[IntRank(ks, i)]]
    else callee.xmm[SseRank(ks, i)].lo
  }

  /** The offset from the entry RSP of the stack slot of Microsoft argument i. */
  function MsSlot(i: int): int {
    0x28 + (i - 4) * 8
  }

  /** The value a Microsoft x64 caller passed for argument i: the positional register, or the slot
      above the return address and the 32 octets of shadow space. */
  function MsValue(ks: seq<int>, i: nat, entry: State): Word
    requires i < |ks|
  {
    if i >= 4 then At(entry, Sp(entry), MsSlot(i))
    else if IntClass(ks[i]) then entry.gpr[MS_GPR[i]]
    else entry.xmm[i].lo
  }

  /** The significant bits of an argument: a float uses the low half of its eightbyte. */
  function Significant(k: int, v: Word): Word {
    if k == K_FLT then v % 0x1_0000_0000 else v
  }

  // ----- Registers across a call

  /** On entry to a function RSP is 8 modulo 16, in both conventions. */
  predicate AtEntry(s: State) {
    Sp(s) % 16 == 8
  }

  /** RBX, RBP and R12 to R15: with RSP, the registers a System V callee keeps (section 3.2.1). A
      Microsoft caller also expects RDI, RSI and XMM6 to XMM15 back. */
  const KEPT: seq<RegNo> := [3, 5, 12, 13, 14, 15]

  predicate KeepsNonVolatile(e: State, s: State) {
    forall k :: 0 <= k < |KEPT| ==> s.gpr[KEPT[k]] == e.gpr[KEPT[k]]
  }

  lemma KeepsThrough(a: State, b: State, c: State)
    requires KeepsNonVolatile(a, b) && KeepsNonVolatile(b, c)
    ensures KeepsNonVolatile(a, c)
  {
  }

  /** The same general registers as e in KEPT only, and no vector register in common. */
  ghost predicate NothingElseKept(e: State, s: State) {
    && (forall k: RegNo :: k !in KEPT && k != RSP ==> s.gpr[k] != e.gpr[k])
    && (forall k: RegNo :: s.xmm[k] != e.xmm[k])
  }

  function Other(v: Word): Word { if v == 0 then 1 else 0 }

  /** The state c after a callee that changed whatever it may. */
  function Scrambled(e: State, c: State): (r: State)
    ensures Sp(r) == Sp(c) && r.mem == c.mem && KeepsNonVolatile(c, r) && NothingElseKept(e, r)
  {
    Cpu(seq(16, k requires 0 <= k < 16 => if k in KEPT || k == RSP then c.gpr[k] else Other(e.gpr[k])),
        seq(16, k requires 0 <= k < 16 => Xmm(Other(e.xmm[k].lo), 0)), c.mem)
  }

  // ----- The position lists the emitter builds

  /** Positions, in order, of the INTEGER-class arguments among the first n. */
  function IntPos(ks: seq<int>, n: nat): (p: seq<nat>)
    requires n <= |ks|
    ensures |p| == IntRank(ks, n)
  {
    if n == 0 then [] else IntPos(ks, n - 1) + if IntClass(ks[n - 1]) then [n - 1] else []
  }

  function SsePos(ks: seq<int>, n: nat): (p: seq<nat>)
    requires n <= |ks|
    ensures |p| == SseRank(ks, n)
  {
    if n == 0 then [] else SsePos(ks, n - 1) + if IntClass(ks[n - 1]) then [] else [n - 1]
  }

  function MemPos(ks: seq<int>, n: nat): (p: seq<nat>)
    requires n <= |ks|
    ensures |p| == MemRank(ks, n)
  {
    if n == 0 then [] else MemPos(ks, n - 1) + if InMemory(ks, n - 1) then [n - 1] else []
  }

  // Entry r of a position list is the argument of rank r, and every argument is in its list.

  lemma {:induction false} IntPosAt(ks: seq<int>, n: nat, r: nat)
    requires n <= |ks| && r < |IntPos(ks, n)|
    ensures var i := IntPos(ks, n)[r];
      r <= i < n && IntClass(ks[i]) && IntRank(ks, i) == r
  {
    if r < |IntPos(ks, n - 1)| {
      IntPosAt(ks, n - 1, r);
    }
  }

  lemma {:induction false} IntPosOf(ks: seq<int>, n: nat, i: nat)
    requires i < n <= |ks| && IntClass(ks[i])
    ensures IntRank(ks, i) < |IntPos(ks, n)| && IntPos(ks, n)[IntRank(ks, i)] == i
  {
    if i < n - 1 {
      IntPosOf(ks, n - 1, i);
    }
  }

  lemma {:induction false} SsePosAt(ks: seq<int>, n: nat, r: nat)
    requires n <= |ks| && r < |SsePos(ks, n)|
    ensures var i := SsePos(ks, n)[r];
      r <= i < n && !IntClass(ks[i]) && SseRank(ks, i) == r
  {
    if r < |SsePos(ks, n - 1)| {
      SsePosAt(ks, n - 1, r);
    }
  }

  lemma {:induction false} SsePosOf(ks: seq<int>, n: nat, i: nat)
    requires i < n <= |ks| && !IntClass(ks[i])
    ensures SseRank(ks, i) < |SsePos(ks, n)| && SsePos(ks, n)[SseRank(ks, i)] == i
  {
    if i < n - 1 {
      SsePosOf(ks, n - 1, i);
    }
  }

  lemma {:induction false} MemPosAt(ks: seq<int>, n: nat, r: nat)
    requires n <= |ks| && r < |MemPos(ks, n)|
    ensures var i := MemPos(ks, n)[r];
      r + 6 <= i && i + (MemRank(ks, n) - r) <= n && InMemory(ks, i) && MemRank(ks, i) == r
  {
    if r < |MemPos(ks, n - 1)| {
      MemPosAt(ks, n - 1, r);
    }
    MemRankBelow(ks, n - 1);
  }

  lemma {:induction false} MemPosOf(ks: seq<int>, n: nat, i: nat)
    requires i < n <= |ks| && InMemory(ks, i)
    ensures MemRank(ks, i) < |MemPos(ks, n)| && MemPos(ks, n)[MemRank(ks, i)] == i
  {
    if i < n - 1 {
      MemPosOf(ks, n - 1, i);
    }
  }

  /** Memory arguments come after at least six others. */
  lemma {:induction false} MemRankBelow(ks: seq<int>, n: nat)
    requires n <= |ks|
    ensures MemRank(ks, n) > 0 ==> n >= 6 + MemRank(ks, n)
    ensures n < |ks| && InMemory(ks, n) ==> n >= 6 + MemRank(ks, n)
  {
    if n > 0 {
      MemRankBelow(ks, n - 1);
    }
  }

  /** Ranks within one list grow with the position. */
  lemma {:induction false} RankMonotone(ks: seq<int>, i: nat, j: nat)
    requires i <= j <= |ks|
    ensures IntRank(ks, i) <= IntRank(ks, j) && SseRank(ks, i) <= SseRank(ks, j)
    decreases j
  {
    if i < j {
      RankMonotone(ks, i, j - 1);
    }
  }
}
