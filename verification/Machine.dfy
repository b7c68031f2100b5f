/** The part of an x86-64 processor the call thunks use: sixteen general registers, sixteen
    vector registers, and memory seen through eight-octet cells. All addresses and all
    stack-pointer arithmetic are modulo 2^64. */
module Machine {
  import opened Bytes

  type Word = x: int | 0 <= x < WORDS

  type RegNo = r: int | 0 <= r < 16

  const RAX: RegNo := 0
  const RCX: RegNo := 1
  const RDX: RegNo := 2
  const RSP: RegNo := 4
  const RSI: RegNo := 6
  const RDI: RegNo := 7
  const R8: RegNo := 8
  const R9: RegNo := 9
  const R10: RegNo := 10
  const R11: RegNo := 11

  datatype Xmm = Xmm(lo: Word, hi: Word)

  datatype Instr =
    | MovReg(dst: RegNo, src: RegNo)    // mov dst, src
    | LoadRsp(dst: RegNo, disp: int)    // mov dst, [rsp+disp]
    | MovXmm(dst: RegNo, src: RegNo)    // movaps dst, src
    | PushRsp(disp: int)                // push qword [rsp+disp]
    | PushReg(reg: RegNo)
    | PopReg(reg: RegNo)
    | SubRsp(n: int)
    | AddRsp(n: int)
    | MovImm(dst: RegNo, imm: Word)     // movabs dst, imm64
    | CallReg(reg: RegNo)
    | JmpReg(reg: RegNo)
    | Ret

  datatype Cpu = Cpu(gpr: seq<Word>, xmm: seq<Xmm>, mem: map<Word, Word>)

  /** A processor state with its sixteen registers of each file. */
  type State = s: Cpu | |s.gpr| == 16 && |s.xmm| == 16
    witness Cpu(seq(16, i => 0), seq(16, i => Xmm(0, 0)), map[])

  /** Reduction modulo 2^64 (WrapIsMod), written as repeated shifts into range. */
  function Wrap(x: int): Word
    decreases if x < 0 then -x else x
  {
    if x < 0 then (if x + WORDS >= 0 then x + WORDS else Wrap(x + WORDS))
    else if x < WORDS then x
    else Wrap(x - WORDS)
  }

  /** Wrapping removes a multiple of 2^64. */
  lemma {:induction false} WrapQuotient(x: int) returns (q: int)
    ensures x == Wrap(x) + WORDS * q
    decreases if x < 0 then -x else x
  {
    if x < 0 {
      if x + WORDS >= 0 {
        q := -1;
      } else {
        var q' := WrapQuotient(x + WORDS);
        q := q' - 1;
      }
    } else if x < WORDS {
      q := 0;
    } else {
      var q' := WrapQuotient(x - WORDS);
      q := q' + 1;
    }
  }

  lemma WrapIsMod(x: int)
    ensures Wrap(x) == x % WORDS
  {
    var q := WrapQuotient(x);
    UniqueRemainder(x, WORDS, q, Wrap(x));
  }

  /** Memory reads as zero where nothing was stored. */
  function Cell(m: map<Word, Word>, a: Word): Word {
    if a in m then m[a] else 0
  }

  /** The cell at `off` octets from the address `base`. */
  function At(s: State, base: int, off: int): Word {
    Cell(s.mem, Wrap(base + off))
  }

  function SetReg(s: State, r: RegNo, v: Word): State {
    s.(gpr := s.gpr[r := v])
  }

  /** The stack pointer, as a plain number. */
  function Sp(s: State): int {
    s.gpr[RSP]
  }

  function Push(s: State, v: Word): State {
    var sp := Wrap(Sp(s) - 8);
    s.(gpr := s.gpr[RSP := sp], mem := s.mem[sp := v])
  }

  /** One straight-line instruction. A memory access off an eight-octet boundary is outside the
      cell model and has no successor, and neither has a control transfer. PUSH with an RSP-based
      operand forms its address before the decrement. */
  function Exec(i: Instr, s: State): Option<State> {
    var sp := Sp(s);
    match i
    case MovReg(d, r) => Some(SetReg(s, d, s.gpr[r]))
    case LoadRsp(d, disp) =>
      if Wrap(sp + disp) % 8 == 0 then Some(SetReg(s, d, At(s, sp, disp))) else None
    case MovXmm(d, r) => Some(s.(xmm := s.xmm[d := s.xmm[r]]))
    case PushRsp(disp) =>
      if Wrap(sp + disp) % 8 == 0 && sp % 8 == 0 then Some(Push(s, At(s, sp, disp))) else None
    case PushReg(r) => if sp % 8 == 0 then Some(Push(s, s.gpr[r])) else None
    case PopReg(r) =>
      if sp % 8 == 0 then Some(SetReg(SetReg(s, RSP, Wrap(sp + 8)), r, At(s, sp, 0))) else None
    case SubRsp(n) => Some(SetReg(s, RSP, Wrap(sp - n)))
    case AddRsp(n) => Some(SetReg(s, RSP, Wrap(sp + n)))
    case MovImm(d, v) => Some(SetReg(s, d, v))
    case CallReg(_) => None
    case JmpReg(_) => None
    case Ret => None
  }

  /** Where a run of code leaves the instruction list it started in. */
  datatype Outcome =
    | Called(target: Word, at: State, rest: seq<Instr>)  // state before the return address is pushed
    | Jumped(target: Word, at: State)
    | Returned(target: Word, at: State)                  // state after the return address is popped
    | Stuck

  function Run(code: seq<Instr>, s: State): Outcome
    decreases |code|
  {
    if code == [] then Stuck else
    match code[0]
    case CallReg(r) => Called(s.gpr[r], s, code[1..])
    case JmpReg(r) => Jumped(s.gpr[r], s)
    case Ret =>
      if Sp(s) % 8 == 0
      then Returned(At(s, Sp(s), 0), SetReg(s, RSP, Wrap(Sp(s) + 8)))
      else Stuck
    case i =>
      match Exec(i, s)
      case None => Stuck
      case Some(s') => Run(code[1..], s')
  }

  /** Executes a list of straight-line instructions to its end. */
  function ExecAll(code: seq<Instr>, s: State): (r: Option<State>)
    decreases |code|
  {
    if code == [] then Some(s) else
    var front := ExecAll(code[..|code| - 1], s);
    if front.None? then None else Exec(code[|code| - 1], front.value)
  }

  lemma {:induction false} ExecAllAppend(a: seq<Instr>, b: seq<Instr>, s: State)
    requires ExecAll(a, s).Some?
    ensures ExecAll(a + b, s) == ExecAll(b, ExecAll(a, s).value)
    decreases |b|
  {
    if b == [] {
      assert a + b == a;
    } else {
      ExecAllAppend(a, b[..|b| - 1], s);
      assert (a + b)[..|a + b| - 1] == a + b[..|b| - 1];
    }
  }

  /** Running code is executing its straight-line head and then running the tail. */
  lemma {:induction false} RunAfter(head: seq<Instr>, tail: seq<Instr>, s: State)
    requires ExecAll(head, s).Some?
    ensures Run(head + tail, s) == Run(tail, ExecAll(head, s).value)
    decreases |head|
  {
    hide Run, Exec;
    if head == [] {
      assert head + tail == tail;
    } else {
      var last := head[|head| - 1];
      var front := head[..|head| - 1];
      RunAfter(front, [last] + tail, s);
      assert front + ([last] + tail) == head + tail;
      RunOne(last, tail, ExecAll(front, s).value);
    }
  }

  lemma RunOne(i: Instr, tail: seq<Instr>, s: State)
    requires Exec(i, s).Some?
    ensures Run([i] + tail, s) == Run(tail, Exec(i, s).value)
  {
    assert ([i] + tail)[1..] == tail;
  }

  lemma WrapOfWrap(x: int, d: int)
    ensures Wrap(Wrap(x) + d) == Wrap(x + d)
  {
    var q := WrapQuotient(x);
    var r := WrapQuotient(Wrap(x) + d);
    var t := WrapQuotient(x + d);
  }

  /** Offsets less than 2^64 apart name different cells, wherever the base is. */
  lemma WrapDistinct(base: int, a: int, b: int)
    requires a != b && -WORDS < a - b < WORDS
    ensures Wrap(base + a) != Wrap(base + b)
  {
    var q := WrapQuotient(base + a);
    var r := WrapQuotient(base + b);
  }

  lemma WrapAligned(x: int)
    ensures Wrap(x) % 16 == x % 16 && Wrap(x) % 8 == x % 8
  {
    var q := WrapQuotient(x);
    var k: int := 0x1000_0000_0000_0000 * q;
    assert x == Wrap(x) + 16 * k;
    SameMod(Wrap(x), k);
  }

  lemma SameMod(r: int, k: int)
    ensures (r + 16 * k) % 16 == r % 16 && (r + 16 * k) % 8 == r % 8
  {
    var a, b := r / 16, r % 16;
    assert r + 16 * k == 16 * (a + k) + b;
  }

  /** n consecutive cells, from `lo` octets above the address `base`. */
  function Words(s: State, base: int, lo: int, n: nat): (ws: seq<Word>)
    ensures |ws| == n
    decreases n
  {
    if n == 0 then [] else [At(s, base, lo)] + Words(s, base, lo + 8, n - 1)
  }

  lemma {:induction false} WordAt(s: State, base: int, lo: int, n: nat, k: nat)
    requires k < n
    ensures Words(s, base, lo, n)[k] == At(s, base, lo + 8 * k)
    decreases n
  {
    if k > 0 {
      WordAt(s, base, lo + 8, n - 1, k - 1);
    }
  }

  /** Cells only depend on the memory. */
  lemma {:induction false} SameWords(a: State, b: State, base: int, lo: int, n: nat)
    requires a.mem == b.mem
    ensures Words(a, base, lo, n) == Words(b, base, lo, n)
    decreases n
  {
    if n > 0 {
      SameWords(a, b, base, lo + 8, n - 1);
    }
  }

  /** A push writes the cell below the stack pointer. */
  lemma PushedCell(s: State, base: int, depth: int, v: Word)
    requires Sp(s) == Wrap(base + depth)
    ensures At(Push(s, v), base, depth - 8) == v
    ensures Sp(Push(s, v)) == Wrap(base + depth - 8)
  {
    WrapOfWrap(base + depth, -8);
  }

  lemma OtherCell(s: State, base: int, depth: int, v: Word, off: int)
    requires Sp(s) == Wrap(base + depth) && off != depth - 8 && -WORDS < off - (depth - 8) < WORDS
    ensures At(Push(s, v), base, off) == At(s, base, off)
  {
    WrapOfWrap(base + depth, -8);
    WrapDistinct(base, off, depth - 8);
  }

  /** A push leaves the cells above it alone. */
  lemma {:induction false} WordsAfterPush(s: State, base: int, depth: int, v: Word, lo: int, n: nat)
    requires Sp(s) == Wrap(base + depth) && depth <= lo && lo + 8 * n - depth < 0x1_0000
    ensures Words(Push(s, v), base, lo, n) == Words(s, base, lo, n)
    decreases n
  {
    if n > 0 {
      OtherCell(s, base, depth, v, lo);
      WordsAfterPush(s, base, depth, v, lo + 8, n - 1);
    }
  }

  /** The cells from `base` up, far enough for a caller's frame, are the same in both states. */
  ghost predicate SameAbove(a: State, b: State, base: int) {
    forall off :: 0 <= off < 0x1000 ==> At(a, base, off) == At(b, base, off)
  }

  lemma SameAboveAfterPush(s: State, base: int, depth: int, v: Word)
    requires Sp(s) == Wrap(base + depth) && -0x1000 < depth <= 0
    ensures SameAbove(Push(s, v), s, base)
  {
    forall off | 0 <= off < 0x1000 ensures At(Push(s, v), base, off) == At(s, base, off) {
      OtherCell(s, base, depth, v, off);
    }
  }

  /** Pushing extends the run of cells at the stack pointer downwards. */
  lemma WordsGrow(s: State, base: int, depth: int, v: Word, n: nat)
    requires Sp(s) == Wrap(base + depth) && 8 * n < 0x1_0000
    ensures Words(Push(s, v), base, depth - 8, n + 1) == [v] + Words(s, base, depth, n)
  {
    PushedCell(s, base, depth, v);
    WordsAfterPush(s, base, depth, v, depth, n);
  }

  /** A load through the stack pointer, seen from a fixed base. */
  lemma AtThroughSp(s: State, base: int, depth: int, disp: int)
    requires Sp(s) == Wrap(base + depth)
    ensures At(s, Sp(s), disp) == At(s, base, depth + disp)
    ensures Wrap(Sp(s) + disp) % 8 == (base + depth + disp) % 8
    ensures Sp(s) % 8 == (base + depth) % 8
  {
    WrapOfWrap(base + depth, disp);
    WrapAligned(base + depth + disp);
    WrapAligned(base + depth);
  }
}
