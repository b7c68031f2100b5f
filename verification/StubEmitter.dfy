/** The emitters: octets written one by one through a bumped cursor into a code buffer. */
module StubEmitter {
  import opened Bytes
  import opened Machine
  import opened Codec
  import opened CallAbi
  import opened StubCode

  /** s with the octets bs in place of what was at `at`. */
  function Spliced(s: seq<byte>, at: nat, bs: seq<byte>): (r: seq<byte>)
    requires at + |bs| <= |s|
    ensures |r| == |s| && r[at..at + |bs|] == bs
  {
    s[..at] + bs + s[at + |bs|..]
  }

  lemma SplicedNothing(s: seq<byte>, at: nat)
    requires at <= |s|
    ensures Spliced(s, at, []) == s
  {
  }

  /** The write cursor of the encoders. `out` is what has been written through it so far, and `code`
      the instructions these octets encode. */
  class CodeCursor {
    const buf: array<byte>
    var p: nat
    ghost const before: seq<byte>
    ghost const start: nat
    ghost var out: seq<byte>
    ghost var code: seq<Instr>

    ghost predicate Raw()
      reads this, buf
    {
      && p == start + |out| <= buf.Length == |before|
      && buf[..] == Spliced(before, start, out)
    }

    ghost predicate Valid()
      reads this, buf
    {
      Raw() && out == EncodeAll(code)
    }

    constructor At(b: array<byte>, at: nat)
      requires at <= b.Length
      ensures Valid() && buf == b && p == start == at && before == b[..] && code == []
    {
      buf, p := b, at;
      before, start, out, code := b[..], at, [], [];
      new;
      assert buf[..] == Spliced(before, start, []);
    }

    method Put(b: byte)
      requires Raw() && p < buf.Length
      modifies this`p, this`out, buf
      ensures Raw() && out == old(out) + [b]
    {
      buf[p] := b;
      p := p + 1;
      out := out + [b];
      assert buf[..] == old(buf[..])[old(p) := b];
    }

    /** Octets written one after the other, each through the bumped cursor. */
    method Write(bs: seq<byte>)
      requires Raw() && p + |bs| <= buf.Length
      modifies this`p, this`out, buf
      ensures Raw() && out == old(out) + bs
    {
      var k := 0;
      while k < |bs|
        invariant 0 <= k <= |bs| && Raw() && p == old(p) + k
        invariant out == old(out) + bs[..k]
      {
        assert bs[..k + 1] == bs[..k] + [bs[k]];
        Put(bs[k]);
        k := k + 1;
      }
      assert bs[..k] == bs;
    }

    /** Octets that encode one instruction. */
    method Emit(bs: seq<byte>, ghost i: Instr)
      requires Valid() && p + |bs| <= buf.Length && bs == Encode(i)
      modifies this`p, this`out, this`code, buf
      ensures Valid() && code == old(code) + [i] && p == old(p) + |bs|
    {
      Write(bs);
      EncodeSnoc(code, i);
      code := code + [i];
    }

    method EMovReg(dst: RegNo, src: RegNo)
      requires Valid() && p + |Encode(MovReg(dst, src))| <= buf.Length
      modifies this`p, this`out, this`code, buf
      ensures Valid() && code == old(code) + [MovReg(dst, src)]
      ensures p == old(p) + |Encode(MovReg(dst, src))|
    {
      var rex: byte := 0x48;
      if dst >= 8 { rex := rex + 4; }
      if src >= 8 { rex := rex + 1; }
      Emit([rex, 0x8B, 0xC0 + dst % 8 * 8 + src % 8], MovReg(dst, src));
    }

    method ELoadRsp(dst: RegNo, disp: int)
      requires Valid() && p + |Encode(LoadRsp(dst, disp))| <= buf.Length
      modifies this`p, this`out, this`code, buf
      ensures Valid() && code == old(code) + [LoadRsp(dst, disp)]
      ensures p == old(p) + |Encode(LoadRsp(dst, disp))|
    {
      var rex: byte := 0x48;
      if dst >= 8 { rex := rex + 4; }
      if disp < 128 {
        Emit([rex, 0x8B, 0x44 + dst % 8 * 8, 0x24, disp % 256], LoadRsp(dst, disp));
      } else {
        Emit([rex, 0x8B, 0x84 + dst % 8 * 8, 0x24] + ToLe(disp, 4), LoadRsp(dst, disp));
      }
    }

    method EMovXmm(dst: RegNo, src: RegNo)
      requires Valid() && p + |Encode(MovXmm(dst, src))| <= buf.Length
      modifies this`p, this`out, this`code, buf
      ensures Valid() && code == old(code) + [MovXmm(dst, src)]
      ensures p == old(p) + |Encode(MovXmm(dst, src))|
    {
      Emit([0x0F, 0x28, 0xC0 + dst % 8 * 8 + src % 8], MovXmm(dst, src));
    }

    method EPushRsp(disp: int)
      requires Valid() && p + |Encode(PushRsp(disp))| <= buf.Length
      modifies this`p, this`out, this`code, buf
      ensures Valid() && code == old(code) + [PushRsp(disp)]
      ensures p == old(p) + |Encode(PushRsp(disp))|
    {
      if disp < 128 {
        Emit([0xFF, 0x74, 0x24, disp % 256], PushRsp(disp));
      } else {
        Emit([0xFF, 0xB4, 0x24] + ToLe(disp, 4), PushRsp(disp));
      }
    }

    method ESubRsp(n: int)
      requires Valid() && p + |Encode(SubRsp(n))| <= buf.Length
      modifies this`p, this`out, this`code, buf
      ensures Valid() && code == old(code) + [SubRsp(n)]
      ensures p == old(p) + |Encode(SubRsp(n))|
    {
      Emit([0x48, 0x83, 0xEC, n % 256], SubRsp(n));
    }

    method EAddRsp(n: int)
      requires Valid() && p + |Encode(AddRsp(n))| <= buf.Length
      modifies this`p, this`out, this`code, buf
      ensures Valid() && code == old(code) + [AddRsp(n)]
      ensures p == old(p) + |Encode(AddRsp(n))|
    {
      Emit([0x48, 0x83, 0xC4, n % 256], AddRsp(n));
    }

    method EMovabs(dst: RegNo, v: Word)
      requires Valid() && p + |Encode(MovImm(dst, v))| <= buf.Length
      modifies this`p, this`out, this`code, buf
      ensures Valid() && code == old(code) + [MovImm(dst, v)]
      ensures p == old(p) + |Encode(MovImm(dst, v))|
    {
      Emit([if dst >= 8 then 0x49 else 0x48, 0xB8 + dst % 8] + ToLe(v, 8), MovImm(dst, v));
    }

    method ECallRax()
      requires Valid() && p + |Encode(CallReg(RAX))| <= buf.Length
      modifies this`p, this`out, this`code, buf
      ensures Valid() && code == old(code) + [CallReg(RAX)]
      ensures p == old(p) + |Encode(CallReg(RAX))|
    {
      Emit([0xFF, 0xD0], CallReg(RAX));
    }

    method EJmpRax()
      requires Valid() && p + |Encode(JmpReg(RAX))| <= buf.Length
      modifies this`p, this`out, this`code, buf
      ensures Valid() && code == old(code) + [JmpReg(RAX)]
      ensures p == old(p) + |Encode(JmpReg(RAX))|
    {
      Emit([0xFF, 0xE0], JmpReg(RAX));
    }

    method ERet()
      requires Valid() && p + |Encode(Ret)| <= buf.Length
      modifies this`p, this`out, this`code, buf
      ensures Valid() && code == old(code) + [Ret]
      ensures p == old(p) + |Encode(Ret)|
    {
      Emit([0xC3], Ret);
    }
  }

  lemma EncodeSnoc(code: seq<Instr>, i: Instr)
    ensures EncodeAll(code + [i]) == EncodeAll(code) + Encode(i)
  {
    assert (code + [i])[..|code|] == code;
  }

  // ----- Room for a part is room for each instruction of it

  /** How many octets a list takes. */
  ghost function Size(code: seq<Instr>): nat { |EncodeAll(code)| }

  lemma SizeAppend(a: seq<Instr>, b: seq<Instr>)
    ensures Size(a + b) == Size(a) + Size(b)
  {
    EncodeAllAppend(a, b);
  }

  lemma SizeSnoc(code: seq<Instr>, i: Instr)
    ensures Size(code + [i]) == Size(code) + |Encode(i)|
  {
    EncodeSnoc(code, i);
  }

  lemma {:induction false} GprMovesGrow(ipos: seq<nat>, j: nat, n: nat)
    requires j <= n <= |ipos| && n <= 6
    ensures Size(GprMoves(ipos, j)) <= Size(GprMoves(ipos, n))
  {
    if j < n {
      GprMovesGrow(ipos, j, n - 1);
      SizeSnoc(GprMoves(ipos, n - 1), GprMove(n - 1, ipos[n - 1]));
    }
  }

  lemma {:induction false} XmmMovesGrow(spos: seq<nat>, j: nat, n: nat)
    requires j <= n <= |spos| && n <= 8 && forall k :: 0 <= k < |spos| ==> spos[k] < MAX_ARGS
    ensures Size(XmmMoves(spos, j)) <= Size(XmmMoves(spos, n))
  {
    if j < n {
      XmmMovesGrow(spos, j, n - 1);
      XmmSize(spos, n - 1);
    }
  }

  lemma XmmSize(spos: seq<nat>, j: nat)
    requires j < |spos| && j < 8 && forall k :: 0 <= k < |spos| ==> spos[k] < MAX_ARGS
    ensures Size(XmmMoves(spos, j + 1)) ==
      Size(XmmMoves(spos, j)) + if spos[j] != j then |Encode(MovXmm(j, spos[j]))| else 0
  {
    if spos[j] != j {
      SizeSnoc(XmmMoves(spos, j), MovXmm(j, spos[j]));
    } else {
      assert XmmMoves(spos, j + 1) == XmmMoves(spos, j);
    }
  }

  lemma {:induction false} PushesGrow(stk: seq<nat>, pad: nat, j: nat, n: nat)
    requires j <= n <= |stk|
    ensures Size(Pushes(stk, pad, j)) <= Size(Pushes(stk, pad, n))
  {
    if j < n {
      PushesGrow(stk, pad, j, n - 1);
      SizeSnoc(Pushes(stk, pad, n - 1), PushOf(stk, pad, n - 1));
    }
  }

  /** The kind scan: positions of the INTEGER and of the SSE arguments, in order. */
  method ScanKinds(s: Sig) returns (ipos: array<nat>, nint: nat, spos: array<nat>, nsse: nat)
    requires ValidSig(s)
    ensures fresh(ipos) && fresh(spos)
    ensures nint <= ipos.Length && ipos[..nint] == IntPos(Kinds(s), |Kinds(s)|)
    ensures nsse <= spos.Length && spos[..nsse] == SsePos(Kinds(s), |Kinds(s)|)
  {
    ipos, spos := new nat[MAX_ARGS], new nat[MAX_ARGS];
    nint, nsse := 0, 0;
    var ks := Kinds(s);
    var i := 0;
    while i < s.nargs
      invariant 0 <= i <= s.nargs
      invariant nint + nsse == i && ipos.Length == spos.Length == MAX_ARGS
      invariant ipos[..nint] == IntPos(ks, i) && spos[..nsse] == SsePos(ks, i)
    {
      if s.arg[i] == K_INT || s.arg[i] == K_PTR {
        ipos[nint] := i;
        nint := nint + 1;
      } else {
        spos[nsse] := i;
        nsse := nsse + 1;
      }
      i := i + 1;
    }
  }

  /** The overflow scan: positions of the arguments System V takes in memory, in order. */
  method ScanOverflow(s: Sig) returns (stk: array<nat>, nstk: nat)
    requires ValidSig(s)
    ensures fresh(stk)
    ensures nstk <= stk.Length && stk[..nstk] == MemPos(Kinds(s), |Kinds(s)|)
  {
    stk := new nat[MAX_ARGS];
    nstk := 0;
    var ks := Kinds(s);
    var ri, rs, i := 0, 0, 0;
    while i < s.nargs
      invariant 0 <= i <= s.nargs && stk.Length == MAX_ARGS
      invariant ri == IntRank(ks, i) && rs == SseRank(ks, i)
      invariant nstk == MemRank(ks, i) && stk[..nstk] == MemPos(ks, i)
    {
      if s.arg[i] == K_INT || s.arg[i] == K_PTR {
        if ri >= 6 {
          stk[nstk] := i;
          nstk := nstk + 1;
        }
        ri := ri + 1;
      } else {
        if rs >= 8 {
          stk[nstk] := i;
          nstk := nstk + 1;
        }
        rs := rs + 1;
      }
      i := i + 1;
    }
  }

  function CallCode(target: Word, n: nat): seq<Instr> {
    [MovImm(RAX, target), CallReg(RAX)] + [AddRsp(n), Ret]
  }

  /** Part 1: RCX, RDX and R8 saved, then one fetch for each of the first six INTEGER arguments. */
  method EmitGprShuffle(cur: CodeCursor, ipos: seq<nat>)
    requires cur.Valid() && cur.code == []
    requires cur.p + Size(SAVES + GprMoves(ipos, Min(|ipos|, 6))) <= cur.buf.Length
    requires forall k :: 0 <= k < |ipos| ==> ipos[k] < MAX_ARGS
    modifies cur`p, cur`out, cur`code, cur.buf
    ensures cur.Valid() && cur.code == SAVES + GprMoves(ipos, Min(|ipos|, 6))
    ensures cur.p == old(cur.p) + Size(SAVES + GprMoves(ipos, Min(|ipos|, 6)))
  {
    hide CodeCursor.Valid, Encode, Size, GprMoves;
    var nreg := Min(|ipos|, 6);
    SizeAppend(SAVES, GprMoves(ipos, nreg));
    EmitSaves(cur);
    EmitFetches(cur, ipos, nreg);
  }

  method EmitSaves(cur: CodeCursor)
    requires cur.Valid() && cur.code == [] && cur.p + Size(SAVES) <= cur.buf.Length
    modifies cur`p, cur`out, cur`code, cur.buf
    ensures cur.Valid() && cur.code == SAVES && cur.p == old(cur.p) + Size(SAVES)
  {
    hide CodeCursor.Valid, Encode;
    SavesSize();
    cur.EMovReg(R10, RCX);
    cur.EMovReg(R11, RDX);
    cur.EMovReg(RAX, R8);
  }

  lemma SavesSize()
    ensures Size(SAVES) == |Encode(SAVES[0])| + |Encode(SAVES[1])| + |Encode(SAVES[2])|
  {
    hide Encode;
    SizeSnoc([], SAVES[0]);
    SizeSnoc([SAVES[0]], SAVES[1]);
    SizeSnoc([SAVES[0], SAVES[1]], SAVES[2]);
    assert SAVES == [SAVES[0], SAVES[1]] + [SAVES[2]];
    assert [SAVES[0], SAVES[1]] == [SAVES[0]] + [SAVES[1]] && [SAVES[0]] == [] + [SAVES[0]];
  }

  /** One fetch, by register or from the stack. */
  method EmitFetch(cur: CodeCursor, j: nat, i: nat)
    requires cur.Valid() && j < 6 && i < MAX_ARGS && cur.p + |Encode(GprMove(j, i))| <= cur.buf.Length
    modifies cur`p, cur`out, cur`code, cur.buf
    ensures cur.Valid() && cur.code == old(cur.code) + [GprMove(j, i)]
    ensures cur.p == old(cur.p) + |Encode(GprMove(j, i))|
  {
    hide CodeCursor.Valid, Encode;
    var dst := SV_GPR[j];
    if i < 4 {
      var saved := if MS_GPR[i] == RCX then R10 else if MS_GPR[i] == RDX then R11
                   else if MS_GPR[i] == R8 then RAX else R9;
      assert GprMove(j, i) == MovReg(dst, saved);
      cur.EMovReg(dst, saved);
    } else {
      cur.ELoadRsp(dst, 0x28 + (i - 4) * 8);
    }
  }

  method EmitFetches(cur: CodeCursor, ipos: seq<nat>, nreg: nat)
    requires cur.Valid() && nreg <= |ipos| && nreg <= 6 && cur.p + Size(GprMoves(ipos, nreg)) <= cur.buf.Length
    requires forall k :: 0 <= k < |ipos| ==> ipos[k] < MAX_ARGS
    modifies cur`p, cur`out, cur`code, cur.buf
    ensures cur.Valid() && cur.code == old(cur.code) + GprMoves(ipos, nreg)
    ensures cur.p == old(cur.p) + Size(GprMoves(ipos, nreg))
  {
    hide CodeCursor.Valid, Encode, Size, GprMove;
    SizeNone();
    var j := 0;
    while j < nreg
      invariant 0 <= j <= nreg && cur.Valid()
      invariant cur.code == old(cur.code) + GprMoves(ipos, j) && cur.p == old(cur.p) + Size(GprMoves(ipos, j))
    {
      GprMovesGrow(ipos, j + 1, nreg);
      SizeSnoc(GprMoves(ipos, j), GprMove(j, ipos[j]));
      EmitFetch(cur, j, ipos[j]);
      j := j + 1;
    }
  }

  /** Part 2: one vector move for each of the first eight SSE arguments that is not in place. */
  method EmitXmmShuffle(cur: CodeCursor, spos: seq<nat>)
    requires forall k :: 0 <= k < |spos| ==> spos[k] < MAX_ARGS
    requires cur.Valid() && cur.p + Size(XmmMoves(spos, Min(|spos|, 8))) <= cur.buf.Length
    modifies cur`p, cur`out, cur`code, cur.buf
    ensures cur.Valid() && cur.code == old(cur.code) + XmmMoves(spos, Min(|spos|, 8))
    ensures cur.p == old(cur.p) + Size(XmmMoves(spos, Min(|spos|, 8)))
  {
    hide CodeCursor.Valid, Encode, Size;
    SizeNone();
    var nxmm := Min(|spos|, 8);
    var j := 0;
    while j < nxmm
      invariant 0 <= j <= nxmm && cur.Valid()
      invariant cur.code == old(cur.code) + XmmMoves(spos, j) && cur.p == old(cur.p) + Size(XmmMoves(spos, j))
    {
      var src := spos[j];
      XmmMovesGrow(spos, j + 1, nxmm);
      XmmSize(spos, j);
      if src != j {
        cur.EMovXmm(j, src);
      }
      j := j + 1;
    }
  }

  /** Part 3: the alignment pad, then the memory arguments pushed last to first. */
  method EmitOverflow(cur: CodeCursor, stk: seq<nat>, pad: nat)
    requires cur.Valid() && cur.p + Size(PadCode(pad) + Pushes(stk, pad, |stk|)) <= cur.buf.Length
    modifies cur`p, cur`out, cur`code, cur.buf
    ensures cur.Valid() && cur.code == old(cur.code) + (PadCode(pad) + Pushes(stk, pad, |stk|))
    ensures cur.p == old(cur.p) + Size(PadCode(pad) + Pushes(stk, pad, |stk|))
  {
    hide CodeCursor.Valid, Encode, Size, Pushes;
    SizeAppend(PadCode(pad), Pushes(stk, pad, |stk|));
    if pad != 0 {
      SizeOne(SubRsp(pad));
      cur.ESubRsp(pad);
    } else {
      SizeNone();
    }
    EmitPushes(cur, stk, pad);
  }

  lemma SizeNone()
    ensures Size([]) == 0
  {
  }

  lemma SizeOne(i: Instr)
    ensures Size([i]) == |Encode(i)|
  {
    EncodeOne(i);
  }

  method EmitPushes(cur: CodeCursor, stk: seq<nat>, pad: nat)
    requires cur.Valid() && cur.p + Size(Pushes(stk, pad, |stk|)) <= cur.buf.Length
    modifies cur`p, cur`out, cur`code, cur.buf
    ensures cur.Valid() && cur.code == old(cur.code) + Pushes(stk, pad, |stk|)
    ensures cur.p == old(cur.p) + Size(Pushes(stk, pad, |stk|))
  {
    hide CodeCursor.Valid, Encode, Size;
    SizeNone();
    var k := 0;
    while k < |stk|
      invariant 0 <= k <= |stk| && cur.Valid()
      invariant cur.code == old(cur.code) + Pushes(stk, pad, k) && cur.p == old(cur.p) + Size(Pushes(stk, pad, k))
    {
      var i := stk[|stk| - 1 - k];
      PushesGrow(stk, pad, k + 1, |stk|);
      SizeSnoc(Pushes(stk, pad, k), PushOf(stk, pad, k));
      cur.EPushRsp(0x28 + (i - 4) * 8 + pad + 8 * k);
      k := k + 1;
    }
  }

  /** Part 4: the call through RAX, the cleanup and the return. */
  method EmitCall(cur: CodeCursor, target: Word, nstk: nat, pad: nat)
    requires cur.Valid() && cur.p + Size(CallCode(target, 8 * nstk + pad)) <= cur.buf.Length
    modifies cur`p, cur`out, cur`code, cur.buf
    ensures cur.Valid() && cur.code == old(cur.code) + CallCode(target, 8 * nstk + pad)
    ensures cur.p == old(cur.p) + Size(CallCode(target, 8 * nstk + pad))
  {
    hide CodeCursor.Valid, Encode, Size;
    CallSize(target, 8 * nstk + pad);
    cur.EMovabs(RAX, target);
    cur.ECallRax();
    cur.EAddRsp(nstk * 8 + pad);
    cur.ERet();
  }

  lemma CallSize(target: Word, n: nat)
    ensures Size(CallCode(target, n)) ==
      |Encode(MovImm(RAX, target))| + |Encode(CallReg(RAX))| + |Encode(AddRsp(n))| + |Encode(Ret)|
  {
    hide Encode, Size;
    var a, b, c, d := MovImm(RAX, target), CallReg(RAX), AddRsp(n), Ret;
    SizeOne(a);
    SizeSnoc([a], b);
    SizeOne(c);
    SizeSnoc([c], d);
    SizeAppend([a, b], [c, d]);
    assert [a, b] == [a] + [b] && [c, d] == [c] + [d];
  }

  /** The four parts emitted in turn make up the stub of the signature. */
  method EmitStub(cur: CodeCursor, s: Sig, target: Word)
    requires ValidSig(s) && cur.Valid() && cur.code == []
    requires cur.p + |StubBytes(Kinds(s), target)| <= cur.buf.Length
    modifies cur`p, cur`out, cur`code, cur.buf
    ensures cur.Valid() && cur.code == Stub(Kinds(s), target)
    ensures cur.p == old(cur.p) + |StubBytes(Kinds(s), target)|
  {
    hide CodeCursor.Valid, GprMoves, XmmMoves, Pushes, PushOf, IntPos, SsePos, MemPos, IntRank, SseRank, MemRank,
         Stub, StubBytes, PadCode, GprCode, XmmCode, StackCode, CallCode, Size;
    ghost var ks := Kinds(s);
    var ipos, nint, spos, nsse := ScanKinds(s);
    PositionsInRange(ks);
    StubParts(ks, target);
    EmitGprShuffle(cur, ipos[..nint]);
    EmitXmmShuffle(cur, spos[..nsse]);
    var stk, nstk := ScanOverflow(s);
    var pad := if nstk % 2 == 0 then 8 else 0;
    EmitOverflow(cur, stk[..nstk], pad);
    EmitCall(cur, target, nstk, pad);
  }

  /** The stub is its four parts, and takes as many octets as they do together. */
  lemma StubParts(ks: seq<int>, target: Word)
    requires |ks| <= MAX_ARGS
    requires forall k :: 0 <= k < |SsePos(ks, |ks|)| ==> SsePos(ks, |ks|)[k] < MAX_ARGS
    ensures
      var a := SAVES + GprMoves(IntPos(ks, |ks|), Min(|IntPos(ks, |ks|)|, 6));
      var b := XmmMoves(SsePos(ks, |ks|), Min(|SsePos(ks, |ks|)|, 8));
      var pad := PadFor(|MemPos(ks, |ks|)|);
      var c := PadCode(pad) + Pushes(MemPos(ks, |ks|), pad, |MemPos(ks, |ks|)|);
      var d := CallCode(target, 8 * |MemPos(ks, |ks|)| + pad);
      && Stub(ks, target) == a + b + c + d
      && |StubBytes(ks, target)| == Size(a) + Size(b) + Size(c) + Size(d)
  {
    hide GprMoves, XmmMoves, Pushes, PadCode, EncodeAll;
    CallIs(ks, target);
    SizeAppend(GprCode(ks), XmmCode(ks));
    SizeAppend(GprCode(ks) + XmmCode(ks), StackCode(ks));
    SizeAppend(GprCode(ks) + XmmCode(ks) + StackCode(ks), [MovImm(RAX, target), CallReg(RAX)] + Cleanup(ks));
  }

  lemma CallIs(ks: seq<int>, target: Word)
    requires |ks| <= MAX_ARGS
    ensures [MovImm(RAX, target), CallReg(RAX)] + Cleanup(ks) ==
      CallCode(target, 8 * MemRank(ks, |ks|) + PadFor(MemRank(ks, |ks|)))
  {
    hide MemRank, PadFor;
  }

  lemma PositionsInRange(ks: seq<int>)
    requires |ks| <= MAX_ARGS
    ensures forall k :: 0 <= k < |IntPos(ks, |ks|)| ==> IntPos(ks, |ks|)[k] < MAX_ARGS
    ensures forall k :: 0 <= k < |SsePos(ks, |ks|)| ==> SsePos(ks, |ks|)[k] < MAX_ARGS
  {
    forall k | 0 <= k < |IntPos(ks, |ks|)| ensures IntPos(ks, |ks|)[k] < MAX_ARGS {
      IntPosAt(ks, |ks|, k);
    }
    SsePosBounded(ks);
  }

  /** Through a new cursor at `at`. */
  method EmitAt(buf: array<byte>, at: nat, target: Word, s: Sig) returns (n: nat)
    requires ValidSig(s) && at + |StubBytes(Kinds(s), target)| <= buf.Length
    modifies buf
    ensures n == |StubBytes(Kinds(s), target)|
    ensures buf[..] == Spliced(old(buf[..]), at, StubBytes(Kinds(s), target))
  {
    hide Stub, EncodeAll, Spliced;
    var cur := new CodeCursor.At(buf, at);
    EmitStub(cur, s, target);
    n := cur.p - at;
  }

  /** A request the emitter serves: a buffer, a target and a well-formed signature. */
  predicate Served(haveBuf: bool, target: Word, s: Option<Sig>) {
    haveBuf && target != 0 && s.Some? && ValidSig(s.value)
  }

  /** The octets a request is answered with: a stub, or nothing. */
  ghost function Answer(haveBuf: bool, target: Word, s: Option<Sig>): seq<byte> {
    if Served(haveBuf, target, s) then StubBytes(Kinds(s.value), target) else []
  }

  lemma AnswerSize(haveBuf: bool, target: Word, s: Option<Sig>)
    ensures |Answer(haveBuf, target, s)| <= 256
    ensures Answer(haveBuf, target, s) == [] <==> !Served(haveBuf, target, s)
  {
    hide StubBytes;
    if Served(haveBuf, target, s) {
      StubSize(Kinds(s.value), target);
    }
  }

  /** emit_ms2sysv_typed, into a buffer that the stub fits in: writes the stub at `at` and returns its
      length, or writes nothing and returns 0. */
  method EmitMs2SysvTyped(buf: array?<byte>, at: nat, target: Word, s: Option<Sig>) returns (n: nat)
    requires buf != null ==> at + |Answer(true, target, s)| <= buf.Length
    modifies buf
    ensures n == |Answer(buf != null, target, s)| && (n == 0 <==> !Served(buf != null, target, s))
    ensures buf != null ==> buf[..] == Spliced(old(buf[..]), at, Answer(true, target, s))
  {
    hide StubBytes, Stub;
    AnswerSize(buf != null, target, s);
    if buf != null {
      SplicedNothing(buf[..], at);
    }
    if buf == null || target == 0 || s.None? {
      return 0;
    }
    if s.value.nargs < 0 || s.value.nargs > MAX_ARGS {
      return 0;
    }
    var i := 0;
    while i < s.value.nargs
      invariant 0 <= i <= s.value.nargs
      invariant forall j :: 0 <= j < i ==> IsKind(s.value.arg[j])
    {
      if !IsKind(s.value.arg[i]) {
        return 0;
      }
      i := i + 1;
    }
    n := EmitAt(buf, at, target, s.value);
  }

  /** The static arena of make_ms2sysv_typed: stubs laid one after the other from its start. */
  class TypedArena {
    const arena: array<byte>
    var off: nat

    /** Where each stub starts, and its octets. */
    ghost var stubs: seq<(nat, seq<byte>)>

    ghost predicate Valid()
      reads this, arena
    {
      && off <= arena.Length == ARENA_SIZE
      && (forall k :: 0 <= k < |stubs| ==> Holds(stubs[k]))
    }

    /** The stub is still in place, below the allocation offset. */
    ghost predicate Holds(stub: (nat, seq<byte>))
      requires off <= arena.Length
      reads this, arena
    {
      stub.0 + |stub.1| <= off && arena[stub.0..stub.0 + |stub.1|] == stub.1
    }

    constructor ()
      ensures Valid() && off == 0 && stubs == []
    {
      arena := new byte[ARENA_SIZE](i => 0);
      off, stubs := 0, [];
    }

    /** make_ms2sysv_typed, in an arena that the stub still fits in: the address of a new stub, or None
        for a request the emitter refuses. Stubs handed out before keep their octets. */
    method Make(target: Word, s: Option<Sig>) returns (at: Option<nat>)
      requires Valid() && off + |Answer(true, target, s)| <= ARENA_SIZE
      modifies this, arena
      ensures Valid()
      ensures at.Some? <==> Served(true, target, s)
      ensures at.None? ==> stubs == old(stubs) && off == old(off)
      ensures at.Some? ==> at.value == old(off) && off == at.value + |StubBytes(Kinds(s.value), target)|
      ensures at.Some? ==> stubs == old(stubs) + [(at.value, StubBytes(Kinds(s.value), target))]
    {
      hide StubBytes;
      AnswerSize(true, target, s);
      var n := EmitMs2SysvTyped(arena, off, target, s);
      if n == 0 || n > 256 || off + n > arena.Length {
        return None;
      }
      ghost var stub := (off, Answer(true, target, s));
      at := Some(off);
      off := off + n;
      forall k | 0 <= k < |stubs| ensures Holds(stubs[k]) {
        StillHolds(old(arena[..]), arena[..], old(off), stub.1, stubs[k]);
      }
      stubs := stubs + [stub];
    }
  }

  /** Splicing at `at` leaves what lies below it. */
  lemma StillHolds(was: seq<byte>, now: seq<byte>, at: nat, bs: seq<byte>, stub: (nat, seq<byte>))
    requires at + |bs| <= |was| && now == Spliced(was, at, bs)
    requires stub.0 + |stub.1| <= at && was[stub.0..stub.0 + |stub.1|] == stub.1
    ensures |now| == |was| && now[stub.0..stub.0 + |stub.1|] == stub.1
  {
  }

  const ARENA_SIZE: nat := 8192
}
