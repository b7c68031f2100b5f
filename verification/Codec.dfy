/** The instruction encodings the emitters write, and an independent decoder for the subset of
    x86-64 they fall in (REX.W prefix, ModRM, SIB with an RSP base, displacement, immediate). */
module Codec {
  import opened Bytes
  import opened Machine

  // ----- Encoders: one per e_* helper. The bit fields each helper joins with `|` do not
  //       overlap, so they are written as sums (ModRmFieldsAdd).

  function EncMovReg(dst: RegNo, src: RegNo): seq<byte> {
    [0x48 + (if dst >= 8 then 4 else 0) + (if src >= 8 then 1 else 0), 0x8B, 0xC0 + dst % 8 * 8 + src % 8]
  }

  function EncLoadRsp(dst: RegNo, disp: int): seq<byte> {
    var rex: byte := 0x48 + (if dst >= 8 then 4 else 0);
    if disp < 128
    then [rex, 0x8B, 0x44 + dst % 8 * 8, 0x24, disp % 256]
    else [rex, 0x8B, 0x84 + dst % 8 * 8, 0x24] + ToLe(disp, 4)
  }

  /** No REX prefix: only the low three bits of either register number are encoded. */
  function EncMovXmm(dst: RegNo, src: RegNo): seq<byte> {
    [0x0F, 0x28, 0xC0 + dst % 8 * 8 + src % 8]
  }

  function EncPushRsp(disp: int): seq<byte> {
    if disp < 128
    then [0xFF, 0x74, 0x24, disp % 256]
    else [0xFF, 0xB4, 0x24] + ToLe(disp, 4)
  }

  function EncSubRsp(n: int): seq<byte> { [0x48, 0x83, 0xEC, n % 256] }

  function EncAddRsp(n: int): seq<byte> { [0x48, 0x83, 0xC4, n % 256] }

  function EncMovImm(dst: RegNo, v: Word): seq<byte> {
    [if dst >= 8 then 0x49 else 0x48, 0xB8 + dst % 8] + ToLe(v, 8)
  }

  const ENC_CALL_RAX: seq<byte> := [0xFF, 0xD0]
  const ENC_JMP_RAX: seq<byte> := [0xFF, 0xE0]
  const ENC_RET: seq<byte> := [0xC3]

  /** The octets written for an instruction; PUSH/POP reg and calls or jumps through anything but
      RAX are never written by an emitter. */
  function Encode(i: Instr): seq<byte> {
    match i
    case MovReg(d, s) => EncMovReg(d, s)
    case LoadRsp(d, disp) => EncLoadRsp(d, disp)
    case MovXmm(d, s) => EncMovXmm(d, s)
    case PushRsp(disp) => EncPushRsp(disp)
    case SubRsp(n) => EncSubRsp(n)
    case AddRsp(n) => EncAddRsp(n)
    case MovImm(d, v) => EncMovImm(d, v)
    case CallReg(_) => ENC_CALL_RAX
    case JmpReg(_) => ENC_JMP_RAX
    case Ret => ENC_RET
    case PushReg(_) => []
    case PopReg(_) => []
  }

  function EncodeAll(code: seq<Instr>): seq<byte> {
    if code == [] then [] else EncodeAll(code[..|code| - 1]) + Encode(code[|code| - 1])
  }

  /** One instruction of each form, as an assembler lists it: mov rdi, r10; mov r8, [rsp+0x28];
      movaps xmm0, xmm1; push qword [rsp+0x38]; sub rsp, 8; add rsp, 0x10; call rax; jmp rax; ret. */
  lemma KnownOctets()
    ensures Encode(MovReg(RDI, R10)) == [0x49, 0x8B, 0xFA]
    ensures Encode(LoadRsp(R8, 0x28)) == [0x4C, 0x8B, 0x44, 0x24, 0x28]
    ensures Encode(MovXmm(0, 1)) == [0x0F, 0x28, 0xC1] && Encode(PushRsp(0x38)) == [0xFF, 0x74, 0x24, 0x38]
    ensures Encode(SubRsp(8)) == [0x48, 0x83, 0xEC, 0x08] && Encode(AddRsp(16)) == [0x48, 0x83, 0xC4, 0x10]
    ensures Encode(CallReg(RAX)) == [0xFF, 0xD0] && Encode(JmpReg(RAX)) == [0xFF, 0xE0] && Encode(Ret) == [0xC3]
  {
  }

  lemma ModRmFieldsAdd(dst: bv8, src: bv8)
    ensures 0xC0 | ((dst & 7) << 3) | (src & 7) == 0xC0 + (dst & 7) * 8 + (src & 7)
    ensures 0x44 | ((dst & 7) << 3) == 0x44 + (dst & 7) * 8
    ensures 0x84 | ((dst & 7) << 3) == 0x84 + (dst & 7) * 8
  {
  }

  // ----- Decoder

  datatype Decoded = Decoded(instr: Instr, size: nat)

  function Signed(v: int, n: nat): int {
    if 2 * v < Radix(n) then v else v - Radix(n)
  }

  /** ModRM fields. */
  function Mod(m: byte): int { m / 64 }
  function RegField(m: byte): int { m / 8 % 8 }
  function RmField(m: byte): int { m % 8 }

  /** A ModRM octet at bs[at] addressing [rsp+disp], with its SIB octet and displacement. */
  function RspOperand(bs: seq<byte>, at: nat): Option<(int, nat)> {
    if |bs| < at + 2 || RmField(bs[at]) != 4 || bs[at + 1] != 0x24 then None
    else if Mod(bs[at]) == 0 then Some((0, at + 2))
    else if Mod(bs[at]) == 1 && |bs| >= at + 3 then Some((Signed(bs[at + 2], 1), at + 3))
    else if Mod(bs[at]) == 2 && |bs| >= at + 6 then Some((Signed(FromLe(bs[at + 2..at + 6]), 4), at + 6))
    else None
  }

  function DecodeRexW(bs: seq<byte>): Option<Decoded>
    requires |bs| >= 2 && 0x48 <= bs[0] < 0x50
  {
    var r := bs[0] / 4 % 2 * 8;
    var x := bs[0] / 2 % 2;
    var b := bs[0] % 2 * 8;
    if 0xB8 <= bs[1] < 0xC0 then
      if |bs| < 10 then None
      else
        StoreOfLoad(bs[2..10]);
        RadixValues();
        Some(Decoded(MovImm(bs[1] - 0xB8 + b, FromLe(bs[2..10])), 10))
    else if |bs| < 3 then None
    else if bs[1] == 0x8B then
      if Mod(bs[2]) == 3 then Some(Decoded(MovReg(RegField(bs[2]) + r, RmField(bs[2]) + b), 3))
      else if b == 0 && x == 0 then
        match RspOperand(bs, 2)
        case Some((disp, size)) => Some(Decoded(LoadRsp(RegField(bs[2]) + r, disp), size))
        case None => None
      else None
    else if bs[1] == 0x83 && Mod(bs[2]) == 3 && RmField(bs[2]) == 4 && b == 0 && |bs| >= 4 then
      if RegField(bs[2]) == 5 then Some(Decoded(SubRsp(Signed(bs[3], 1)), 4))
      else if RegField(bs[2]) == 0 then Some(Decoded(AddRsp(Signed(bs[3], 1)), 4))
      else None
    else None
  }

  /** The first instruction of an octet string. */
  function Decode(bs: seq<byte>): Option<Decoded> {
    if bs == [] then None
    else if bs[0] == 0xC3 then Some(Decoded(Ret, 1))
    else if |bs| < 2 then None
    else if 0x48 <= bs[0] < 0x50 then DecodeRexW(bs)
    else if bs[0] == 0x0F && bs[1] == 0x28 then
      if |bs| >= 3 && Mod(bs[2]) == 3 then Some(Decoded(MovXmm(RegField(bs[2]), RmField(bs[2])), 3)) else None
    else if bs[0] == 0xFF then
      if Mod(bs[1]) == 3 && RegField(bs[1]) == 2 then Some(Decoded(CallReg(RmField(bs[1])), 2))
      else if Mod(bs[1]) == 3 && RegField(bs[1]) == 4 then Some(Decoded(JmpReg(RmField(bs[1])), 2))
      else if Mod(bs[1]) != 3 && RegField(bs[1]) == 6 then
        match RspOperand(bs, 1)
        case Some((disp, size)) => Some(Decoded(PushRsp(disp), size))
        case None => None
      else None
    else None
  }

  /** A whole octet string, instruction by instruction; None if any part is not in the subset. */
  function DecodeAll(bs: seq<byte>): Option<seq<Instr>>
    decreases |bs|
  {
    if bs == [] then Some([]) else
    match Decode(bs)
    case None => None
    case Some(d) =>
      if d.size == 0 || d.size > |bs| then None else
      match DecodeAll(bs[d.size..])
      case None => None
      case Some(tail) => Some([d.instr] + tail)
  }

  // ----- The decoder inverts the encoders

  /** The operand ranges in which an encoder is faithful: vector registers below 8, an RSP
      displacement that a signed 32-bit field holds, a stack adjustment that a signed 8-bit field
      holds, and RAX as the only call or jump operand. */
  predicate Encodable(i: Instr) {
    match i
    case MovReg(_, _) => true
    case LoadRsp(_, disp) => 0 <= disp < 0x8000_0000
    case MovXmm(d, s) => d < 8 && s < 8
    case PushRsp(disp) => 0 <= disp < 0x8000_0000
    case SubRsp(n) => 0 <= n < 128
    case AddRsp(n) => 0 <= n < 128
    case MovImm(_, _) => true
    case CallReg(r) => r == RAX
    case JmpReg(r) => r == RAX
    case Ret => true
    case PushReg(_) => false
    case PopReg(_) => false
  }

  lemma Disp32(disp: int)
    requires 0 <= disp < 0x8000_0000
    ensures Signed(FromLe(ToLe(disp, 4)), 4) == disp
  {
    RadixValues();
    LoadOfStore(disp, 4);
  }

  lemma DecodeLoadRsp(d: RegNo, disp: int, rest: seq<byte>)
    requires 0 <= disp < 0x8000_0000
    ensures Decode(EncLoadRsp(d, disp) + rest) == Some(Decoded(LoadRsp(d, disp), |EncLoadRsp(d, disp)|))
  {
    RadixValues();
    var bs := EncLoadRsp(d, disp) + rest;
    if disp >= 128 {
      Disp32(disp);
      assert bs[4..8] == ToLe(disp, 4);
    }
  }

  lemma DecodePushRsp(disp: int, rest: seq<byte>)
    requires 0 <= disp < 0x8000_0000
    ensures Decode(EncPushRsp(disp) + rest) == Some(Decoded(PushRsp(disp), |EncPushRsp(disp)|))
  {
    RadixValues();
    var bs := EncPushRsp(disp) + rest;
    if disp >= 128 {
      Disp32(disp);
      assert bs[3..7] == ToLe(disp, 4);
    }
  }

  lemma DecodeMovImm(d: RegNo, v: Word, rest: seq<byte>)
    ensures Decode(EncMovImm(d, v) + rest) == Some(Decoded(MovImm(d, v), 10))
  {
    hide ToLe, FromLe;
    RadixValues();
    LoadOfStore(v, 8);
    assert (EncMovImm(d, v) + rest)[2..10] == ToLe(v, 8);
  }

  lemma DecodeRspAdjust(n: int, rest: seq<byte>)
    requires 0 <= n < 128
    ensures Decode(EncSubRsp(n) + rest) == Some(Decoded(SubRsp(n), 4))
    ensures Decode(EncAddRsp(n) + rest) == Some(Decoded(AddRsp(n), 4))
  {
    RadixValues();
  }

  lemma ModRmParts(mod: int, reg: int, rm: int)
    requires 0 <= mod < 4 && 0 <= reg < 8 && 0 <= rm < 8
    ensures 0 <= 64 * mod + 8 * reg + rm < 256
    ensures Mod(64 * mod + 8 * reg + rm) == mod
    ensures RegField(64 * mod + 8 * reg + rm) == reg
    ensures RmField(64 * mod + 8 * reg + rm) == rm
  {
    var m := 64 * mod + 8 * reg + rm;
    UniqueRemainder(m, 64, mod, 8 * reg + rm);
    UniqueRemainder(m, 8, 8 * mod + reg, rm);
    UniqueRemainder(8 * mod + reg, 8, mod, reg);
  }

  lemma DecodeMovReg(d: RegNo, r: RegNo, rest: seq<byte>)
    ensures Decode(EncMovReg(d, r) + rest) == Some(Decoded(MovReg(d, r), 3))
  {
    hide FromLe, ToLe, Mod, RegField, RmField, RspOperand;
    ModRmParts(3, d % 8, r % 8);
    RexParts(if d >= 8 then 1 else 0, if r >= 8 then 1 else 0);
    var bs := EncMovReg(d, r) + rest;
    var dh: int := if d >= 8 then 1 else 0;
    var rh: int := if r >= 8 then 1 else 0;
    assert bs[0] == 0x48 + 4 * dh + rh && bs[1] == 0x8B && bs[2] == 0xC0 + d % 8 * 8 + r % 8;
    assert d == d % 8 + 8 * dh && r == r % 8 + 8 * rh;
  }

  /** The REX bits that extend the two register fields. */
  lemma RexParts(dh: int, rh: int)
    requires 0 <= dh <= 1 && 0 <= rh <= 1
    ensures (0x48 + 4 * dh + rh) / 4 % 2 == dh && (0x48 + 4 * dh + rh) % 2 == rh
  {
  }

  lemma DecodeFixed(rest: seq<byte>)
    ensures Decode(ENC_CALL_RAX + rest) == Some(Decoded(CallReg(RAX), 2))
    ensures Decode(ENC_JMP_RAX + rest) == Some(Decoded(JmpReg(RAX), 2))
    ensures Decode(ENC_RET + rest) == Some(Decoded(Ret, 1))
  {
  }

  /** Decoding an encoded instruction, whatever follows it, gives the instruction back. */
  lemma DecodeEncode(i: Instr, rest: seq<byte>)
    requires Encodable(i)
    ensures Decode(Encode(i) + rest) == Some(Decoded(i, |Encode(i)|))
  {
    match i
    case LoadRsp(d, disp) => DecodeLoadRsp(d, disp, rest);
    case PushRsp(disp) => DecodePushRsp(disp, rest);
    case MovImm(d, v) => DecodeMovImm(d, v, rest);
    case SubRsp(n) => DecodeRspAdjust(n, rest);
    case AddRsp(n) => DecodeRspAdjust(n, rest);
    case MovReg(d, r) => DecodeMovReg(d, r, rest);
    case MovXmm(d, r) => MovXmmTruncates(d, r, rest);
    case CallReg(_) => DecodeFixed(rest);
    case JmpReg(_) => DecodeFixed(rest);
    case Ret => DecodeFixed(rest);
  }

  lemma DecodeAllStep(i: Instr, rest: seq<byte>)
    requires Encodable(i)
    ensures DecodeAll(rest).None? ==> DecodeAll(Encode(i) + rest).None?
    ensures DecodeAll(rest).Some? ==> DecodeAll(Encode(i) + rest) == Some([i] + DecodeAll(rest).value)
  {
    DecodeEncode(i, rest);
    var bs := Encode(i) + rest;
    assert Decode(bs) == Some(Decoded(i, |Encode(i)|));
    assert bs[|Encode(i)|..] == rest;
    assert |Encode(i)| > 0;
  }

  /** Without a REX prefix a vector register number survives only if it is below 8: the decoder
      gives a vector move back exactly when both registers are. */
  lemma MovXmmTruncates(d: RegNo, s: RegNo, rest: seq<byte>)
    ensures Decode(EncMovXmm(d, s) + rest) == Some(Decoded(MovXmm(d % 8, s % 8), 3))
    ensures (Decode(EncMovXmm(d, s) + rest) == Some(Decoded(MovXmm(d, s), 3))) <==> d < 8 && s < 8
  {
    ModRmParts(3, d % 8, s % 8);
    assert (EncMovXmm(d, s) + rest)[2] == 64 * 3 + 8 * (d % 8) + s % 8;
  }

  lemma {:induction false} EncodeAllAppend(a: seq<Instr>, b: seq<Instr>)
    ensures EncodeAll(a + b) == EncodeAll(a) + EncodeAll(b)
    decreases |b|
  {
    if b == [] {
      assert a + b == a;
    } else {
      var last := b[|b| - 1];
      EncodeAllAppend(a, b[..|b| - 1]);
      assert (a + b)[..|a + b| - 1] == a + b[..|b| - 1];
      assert (a + b)[|a + b| - 1] == last;
      ConcatAssoc(EncodeAll(a), EncodeAll(b[..|b| - 1]), Encode(last));
    }
  }

  /** The low three bits of a register number. */
  function Low3(r: RegNo): RegNo {
    if r < 8 then r else r - 8
  }

  /** The decoded form of one emitted instruction: the truncation of MovXmm made explicit. */
  function AsEncoded(i: Instr): Instr {
    match i
    case MovXmm(d, s) => MovXmm(Low3(d), Low3(s))
    case _ => i
  }

  function AsEncodedAll(code: seq<Instr>): seq<Instr> {
    seq(|code|, k requires 0 <= k < |code| => AsEncoded(code[k]))
  }

  lemma EncodeOne(i: Instr)
    ensures EncodeAll([i]) == Encode(i) == Encode(AsEncoded(i))
  {
    assert [i][..0] == [];
    assert EncodeAll([i]) == [] + Encode(i);
  }

  /** Decoding a whole emitted program gives it back, up to the truncation of vector registers. */
  lemma {:induction false} DecodeEncodeAll(code: seq<Instr>)
    requires forall i :: i in code ==> Encodable(AsEncoded(i))
    ensures DecodeAll(EncodeAll(code)) == Some(AsEncodedAll(code))
  {
    if code != [] {
      var head, tail := code[0], code[1..];
      assert code == [head] + tail;
      assert head in code;
      DecodeEncodeAll(tail);
      calc {
        DecodeAll(EncodeAll(code));
        { EncodeAllAppend([head], tail); EncodeOne(head); }
        DecodeAll(Encode(AsEncoded(head)) + EncodeAll(tail));
        { DecodeAllStep(AsEncoded(head), EncodeAll(tail)); }
        Some([AsEncoded(head)] + AsEncodedAll(tail));
        { AsEncodedCons(head, tail); }
        Some(AsEncodedAll(code));
      }
    } else {
      assert EncodeAll(code) == [];
      assert AsEncodedAll(code) == [];
    }
  }

  lemma AsEncodedCons(head: Instr, tail: seq<Instr>)
    ensures AsEncodedAll([head] + tail) == [AsEncoded(head)] + AsEncodedAll(tail)
  {
  }
}
