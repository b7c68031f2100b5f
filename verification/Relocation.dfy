/** The base-relocation walk over a mapped PE image ("The .reloc Section (Image Only)" of the
    Microsoft PE/COFF specification). */
module Relocation {
  import opened Bytes

  const DIR64: int := 10    // IMAGE_REL_BASED_DIR64

  type Image = seq<byte>

  type Int64 = x: int | -0x8000_0000_0000_0000 <= x < 0x8000_0000_0000_0000

  function Octet(img: Image, k: nat): byte {
    if k < |img| then img[k] else 0
  }

  function Rd16(img: Image, p: nat): nat {
    Octet(img, p) + 0x100 * Octet(img, p + 1)
  }

  function Rd32(img: Image, p: nat): nat {
    Rd16(img, p) + 0x1_0000 * Rd16(img, p + 2)
  }

  // ----- The slots a table names

  /** Entry k of the block at p: a type in the high four bits, an offset in the low twelve. */
  function EntryType(img: Image, p: nat, k: nat): nat { Rd16(img, p + 8 + 2 * k) / 0x1000 }

  function EntrySlot(img: Image, p: nat, k: nat): nat { Rd32(img, p) + Rd16(img, p + 8 + 2 * k) % 0x1000 }

  function BlockSize(img: Image, p: nat): nat { Rd32(img, p + 4) }

  /** The 64-bit slots among the first n entries of the block at p. */
  function BlockSlots(img: Image, p: nat, n: nat): seq<nat> {
    if n == 0 then []
    else BlockSlots(img, p, n - 1) + if EntryType(img, p, n - 1) == DIR64 then [EntrySlot(img, p, n - 1)] else []
  }

  /** The walk goes from block to block while a block header fits, and stops at a size below 8. */
  predicate HasBlock(img: Image, p: nat, end: nat) {
    p + 8 <= end && BlockSize(img, p) >= 8
  }

  function EntryCount(img: Image, p: nat): nat
    requires BlockSize(img, p) >= 8
  {
    (BlockSize(img, p) - 8) / 2
  }

  function Slots(img: Image, p: nat, end: nat): seq<nat>
    decreases end - p
  {
    if !HasBlock(img, p, end) then []
    else BlockSlots(img, p, EntryCount(img, p)) + Slots(img, p + BlockSize(img, p), end)
  }

  /** Where the walk stops. */
  function Stop(img: Image, p: nat, end: nat): (stop: nat)
    ensures p <= stop
    decreases end - p
  {
    if !HasBlock(img, p, end) then p else Stop(img, p + BlockSize(img, p), end)
  }

  // ----- What is done to them

  /** The 64-bit value at t raised by delta, modulo 2^64. */
  function AddAt(img: Image, t: nat, delta: int): (r: Image)
    requires t + 8 <= |img|
    ensures |r| == |img|
  {
    img[..t] + ToLe(FromLe(img[t..t + 8]) + delta, 8) + img[t + 8..]
  }

  predicate Inside(slots: seq<nat>, n: nat) {
    forall i :: 0 <= i < |slots| ==> slots[i] + 8 <= n
  }

  function AddAll(img: Image, slots: seq<nat>, delta: int): (r: Image)
    requires Inside(slots, |img|)
    ensures |r| == |img|
    decreases |slots|
  {
    if slots == [] then img
    else AddAt(AddAll(img, slots[..|slots| - 1], delta), slots[|slots| - 1], delta)
  }

  predicate Apart(slots: seq<nat>) {
    forall i, j :: 0 <= i < j < |slots| ==> slots[i] + 8 <= slots[j] || slots[j] + 8 <= slots[i]
  }

  /** Slots in an image of n octets that do not touch the table between lo and hi. */
  predicate OutOfTable(slots: seq<nat>, n: nat, lo: nat, hi: nat) {
    forall i :: 0 <= i < |slots| ==> slots[i] + 8 <= n && (slots[i] + 8 <= lo || hi <= slots[i])
  }

  /** Where the octets that the walk may read end. */
  function Limit(img: Image, rva: nat, end: nat): nat {
    if end < Stop(img, rva, end) then Stop(img, rva, end) else end
  }

  /** The table lies in the image, and so do its slots, off the table. */
  predicate WellPlaced(img: Image, rva: nat, end: nat) {
    && rva <= end && Limit(img, rva, end) <= |img|
    && OutOfTable(Slots(img, rva, end), |img|, rva, Limit(img, rva, end))
  }

  /** The image after the walk. Without a table or without a displacement there is none. */
  function Relocated(img: Image, rva: nat, size: nat, delta: Int64): (r: Image)
    requires rva != 0 && delta != 0 ==> WellPlaced(img, rva, rva + size)
    ensures |r| == |img|
  {
    if rva == 0 || delta == 0 then img else AddAll(img, Slots(img, rva, rva + size), delta)
  }

  // ----- Octet by octet

  /** Slot i covers octet k. */
  predicate Covers(slots: seq<nat>, i: int, k: int) {
    0 <= i < |slots| && slots[i] <= k < slots[i] + 8
  }

  lemma {:induction false} OutsideUnchanged(img: Image, slots: seq<nat>, delta: int, k: nat)
    requires Inside(slots, |img|) && k < |img| && forall i :: !Covers(slots, i, k)
    ensures AddAll(img, slots, delta)[k] == img[k]
    decreases |slots|
  {
    if slots != [] {
      var front := slots[..|slots| - 1];
      forall i ensures !Covers(front, i, k) {
        assert !Covers(slots, i, k);
      }
      OutsideUnchanged(img, front, delta, k);
      assert !Covers(slots, |slots| - 1, k);
    }
  }

  /** Each slot's value is raised by delta exactly once. */
  lemma {:induction false} SlotRaised(img: Image, slots: seq<nat>, delta: int, i: nat)
    requires Inside(slots, |img|) && Apart(slots) && i < |slots|
    ensures var t := slots[i]; AddAll(img, slots, delta)[t..t + 8] == ToLe(FromLe(img[t..t + 8]) + delta, 8)
    decreases |slots|
  {
    hide ToLe, FromLe;
    var front, last := slots[..|slots| - 1], slots[|slots| - 1];
    var before := AddAll(img, front, delta);
    var t := slots[i];
    if i == |slots| - 1 {
      UntouchedSlot(img, front, delta, t);
      AddHere(before, t, delta);
    } else {
      SlotRaised(img, front, delta, i);
      AddElsewhere(before, last, delta, t);
    }
  }

  lemma UntouchedSlot(img: Image, slots: seq<nat>, delta: int, t: nat)
    requires Inside(slots, |img|) && t + 8 <= |img|
    requires forall i :: 0 <= i < |slots| ==> slots[i] + 8 <= t || t + 8 <= slots[i]
    ensures AddAll(img, slots, delta)[t..t + 8] == img[t..t + 8]
  {
    hide AddAll;
    var r := AddAll(img, slots, delta);
    forall k | t <= k < t + 8 ensures r[k] == img[k] {
      OutsideUnchanged(img, slots, delta, k);
    }
  }

  lemma AddHere(img: Image, t: nat, delta: int)
    requires t + 8 <= |img|
    ensures AddAt(img, t, delta)[t..t + 8] == ToLe(FromLe(img[t..t + 8]) + delta, 8)
  {
    hide ToLe, FromLe;
  }

  lemma AddElsewhere(img: Image, t: nat, delta: int, u: nat)
    requires t + 8 <= |img| && u + 8 <= |img| && (t + 8 <= u || u + 8 <= t)
    ensures AddAt(img, t, delta)[u..u + 8] == img[u..u + 8]
  {
  }

  /** The 64-bit value at t. */
  function Value(img: Image, t: nat): int
    requires t + 8 <= |img|
  {
    FromLe(img[t..t + 8])
  }

  predicate RaisedAt(img: Image, r: Image, t: nat, delta: int)
    requires t + 8 <= |img| == |r|
  {
    Value(r, t) == (Value(img, t) + delta) % WORDS
  }

  ghost predicate Uncovered(slots: seq<nat>, k: nat) {
    forall i :: !Covers(slots, i, k)
  }

  /** The walk changes nothing off the listed slots, and with no two of them overlapping it adds delta
      modulo 2^64 to each. */
  lemma WalkAddsToSlots(img: Image, rva: nat, size: nat, delta: Int64)
    requires rva != 0 && WellPlaced(img, rva, rva + size)
    ensures var slots, r := Slots(img, rva, rva + size), Relocated(img, rva, size, delta);
      && (Apart(slots) ==> forall i :: 0 <= i < |slots| ==> RaisedAt(img, r, slots[i], delta))
      && (forall k :: 0 <= k < |img| && Uncovered(slots, k) ==> r[k] == img[k])
  {
    hide Slots, AddAll, FromLe, ToLe, Apart;
    var slots := Slots(img, rva, rva + size);
    var r := Relocated(img, rva, size, delta);
    if Apart(slots) {
      forall i | 0 <= i < |slots| ensures RaisedAt(img, r, slots[i], delta) {
        if delta == 0 {
          ValueRange(img, slots[i]);
        } else {
          SlotRaised(img, slots, delta, i);
          StoredSum(Value(img, slots[i]) + delta);
        }
      }
    }
    forall k | 0 <= k < |img| && Uncovered(slots, k) ensures r[k] == img[k] {
      if delta != 0 {
        OutsideUnchanged(img, slots, delta, k);
      }
    }
  }

  lemma StoredSum(v: int)
    ensures FromLe(ToLe(v, 8)) == v % WORDS
  {
    RadixValues();
    LoadOfStore(v, 8);
  }

  lemma ValueRange(img: Image, t: nat)
    requires t + 8 <= |img|
    ensures Value(img, t) % WORDS == Value(img, t)
  {
    RadixValues();
    StoreOfLoad(img[t..t + 8]);
  }

  // ----- The table survives, so a second walk finds the same slots

  /** The two images agree from lo up to hi. */
  ghost predicate Agree(a: Image, b: Image, lo: nat, hi: nat) {
    |a| == |b| && forall k :: lo <= k < hi ==> Octet(a, k) == Octet(b, k)
  }

  lemma {:induction false} BlockAgrees(a: Image, b: Image, lo: nat, hi: nat, p: nat, n: nat)
    requires Agree(a, b, lo, hi) && lo <= p && p + 8 + 2 * n <= hi
    ensures BlockSlots(a, p, n) == BlockSlots(b, p, n) && BlockSize(a, p) == BlockSize(b, p)
    decreases n
  {
    if n > 0 {
      BlockAgrees(a, b, lo, hi, p, n - 1);
    }
  }

  lemma {:induction false} WalkAgrees(a: Image, b: Image, lo: nat, hi: nat, p: nat, end: nat)
    requires Agree(a, b, lo, hi) && lo <= p && end <= hi && Stop(a, p, end) <= hi
    ensures Slots(a, p, end) == Slots(b, p, end) && Stop(a, p, end) == Stop(b, p, end)
    decreases end - p
  {
    hide BlockSlots;
    if p + 8 <= end {
      BlockAgrees(a, b, lo, hi, p, 0);
      if BlockSize(a, p) >= 8 {
        BlockAgrees(a, b, lo, hi, p, EntryCount(a, p));
        WalkAgrees(a, b, lo, hi, p + BlockSize(a, p), end);
      }
    }
  }

  lemma TableKept(img: Image, rva: nat, end: nat, delta: int)
    requires WellPlaced(img, rva, end)
    ensures Agree(img, AddAll(img, Slots(img, rva, end), delta), rva, Limit(img, rva, end))
  {
    hide Slots, AddAll;
    var slots := Slots(img, rva, end);
    forall k | rva <= k < Limit(img, rva, end) ensures Octet(AddAll(img, slots, delta), k) == Octet(img, k) {
      OutsideUnchanged(img, slots, delta, k);
    }
  }

  /** The moved image is again well placed, with the same slots. */
  lemma SameSlots(img: Image, rva: nat, end: nat, delta: int)
    requires WellPlaced(img, rva, end)
    ensures var r := AddAll(img, Slots(img, rva, end), delta);
      WellPlaced(r, rva, end) && Slots(r, rva, end) == Slots(img, rva, end)
  {
    TableKept(img, rva, end, delta);
    WalkAgrees(img, AddAll(img, Slots(img, rva, end), delta), rva, Limit(img, rva, end), rva, end);
  }

  // ----- Composition

  lemma {:induction false} AddTwice(img: Image, slots: seq<nat>, d1: int, d2: int, i: nat)
    requires Inside(slots, |img|) && Apart(slots) && i < |slots|
    ensures var t := slots[i];
      AddAll(AddAll(img, slots, d1), slots, d2)[t..t + 8] == AddAll(img, slots, d1 + d2)[t..t + 8]
  {
    hide AddAll, ToLe, FromLe;
    var v := FromLe(img[slots[i]..slots[i] + 8]);
    SlotRaised(img, slots, d1, i);
    SlotRaised(AddAll(img, slots, d1), slots, d2, i);
    SlotRaised(img, slots, d1 + d2, i);
    StoredSum(v + d1);
    SumOfSums(v, d1, d2);
  }

  lemma SumOfSums(v: int, d1: int, d2: int)
    ensures ToLe((v + d1) % WORDS + d2, 8) == ToLe(v + (d1 + d2), 8)
  {
    var q := (v + d1) / WORDS;
    ShiftMod((v + d1) % WORDS + d2, q);
    SameStore((v + d1) % WORDS + d2, v + (d1 + d2));
  }

  lemma ShiftMod(x: int, q: int)
    ensures (x + WORDS * q) % WORDS == x % WORDS
  {
    UniqueRemainder(x + WORDS * q, WORDS, x / WORDS + q, x % WORDS);
  }

  lemma SameStore(a: int, b: int)
    requires a % WORDS == b % WORDS
    ensures ToLe(a, 8) == ToLe(b, 8)
  {
    RadixValues();
    LoadOfStore(a, 8);
    LoadOfStore(b, 8);
    StoreOfLoad(ToLe(a, 8));
    StoreOfLoad(ToLe(b, 8));
  }

  /** The displacement of two moves in a row, as a signed 64-bit integer. */
  function SumDelta(d1: Int64, d2: Int64): (d: Int64)
    ensures d == d1 + d2 || d == d1 + d2 - WORDS || d == d1 + d2 + WORDS
  {
    var d := d1 + d2;
    if d >= 0x8000_0000_0000_0000 then d - WORDS else if d < -0x8000_0000_0000_0000 then d + WORDS else d
  }

  lemma SameRaise(img: Image, slots: seq<nat>, a: int, b: int, i: nat)
    requires Inside(slots, |img|) && Apart(slots) && i < |slots| && (a == b || a == b + WORDS || a == b - WORDS)
    ensures AddAll(img, slots, a)[slots[i]..slots[i] + 8] == AddAll(img, slots, b)[slots[i]..slots[i] + 8]
  {
    hide AddAll, ToLe, FromLe;
    var v := FromLe(img[slots[i]..slots[i] + 8]);
    SlotRaised(img, slots, a, i);
    SlotRaised(img, slots, b, i);
    ShiftMod(v + b, 1);
    ShiftMod(v + b, -1);
    SameStore(v + a, v + b);
  }

  lemma ZeroRaise(img: Image, slots: seq<nat>, i: nat)
    requires Inside(slots, |img|) && Apart(slots) && i < |slots|
    ensures AddAll(img, slots, 0)[slots[i]..slots[i] + 8] == img[slots[i]..slots[i] + 8]
  {
    hide AddAll, ToLe, FromLe, Radix;
    SlotRaised(img, slots, 0, i);
    StoreOfLoad(img[slots[i]..slots[i] + 8]);
  }

  /** Two images that agree on every slot and off the slots are the same. */
  lemma SameEverywhere(a: Image, b: Image, slots: seq<nat>)
    requires |a| == |b| && Inside(slots, |a|)
    requires forall i :: 0 <= i < |slots| ==> a[slots[i]..slots[i] + 8] == b[slots[i]..slots[i] + 8]
    requires forall k :: 0 <= k < |a| && Uncovered(slots, k) ==> a[k] == b[k]
    ensures a == b
  {
    forall k | 0 <= k < |a| ensures a[k] == b[k] {
      if !Uncovered(slots, k) {
        var i :| Covers(slots, i, k);
        assert a[slots[i]..slots[i] + 8][k - slots[i]] == b[slots[i]..slots[i] + 8][k - slots[i]];
      }
    }
  }

  lemma ComposeSlots(img: Image, slots: seq<nat>, d1: Int64, d2: Int64)
    requires Inside(slots, |img|) && Apart(slots)
    ensures AddAll(AddAll(img, slots, d1), slots, d2) == AddAll(img, slots, SumDelta(d1, d2))
  {
    hide AddAll;
    var a, b := AddAll(AddAll(img, slots, d1), slots, d2), AddAll(img, slots, SumDelta(d1, d2));
    forall i | 0 <= i < |slots| ensures a[slots[i]..slots[i] + 8] == b[slots[i]..slots[i] + 8] {
      AddTwice(img, slots, d1, d2, i);
      SameRaise(img, slots, d1 + d2, SumDelta(d1, d2), i);
    }
    forall k | 0 <= k < |a| && Uncovered(slots, k) ensures a[k] == b[k] {
      OutsideUnchanged(img, slots, d1, k);
      OutsideUnchanged(AddAll(img, slots, d1), slots, d2, k);
      OutsideUnchanged(img, slots, SumDelta(d1, d2), k);
    }
    SameEverywhere(a, b, slots);
  }

  lemma AddZero(img: Image, slots: seq<nat>)
    requires Inside(slots, |img|) && Apart(slots)
    ensures AddAll(img, slots, 0) == img
  {
    hide AddAll;
    forall i | 0 <= i < |slots|
      ensures AddAll(img, slots, 0)[slots[i]..slots[i] + 8] == img[slots[i]..slots[i] + 8]
    {
      ZeroRaise(img, slots, i);
    }
    forall k | 0 <= k < |img| && Uncovered(slots, k) ensures AddAll(img, slots, 0)[k] == img[k] {
      OutsideUnchanged(img, slots, 0, k);
    }
    SameEverywhere(AddAll(img, slots, 0), img, slots);
  }

  /** With no two slots overlapping, relocating by d1 and then by d2 is relocating once by their sum;
      relocating back restores the image. */
  lemma RelocationsCompose(img: Image, rva: nat, size: nat, d1: Int64, d2: Int64)
    requires rva != 0 && WellPlaced(img, rva, rva + size) && Apart(Slots(img, rva, rva + size))
    ensures WellPlaced(Relocated(img, rva, size, d1), rva, rva + size)
    ensures Relocated(Relocated(img, rva, size, d1), rva, size, d2) == Relocated(img, rva, size, SumDelta(d1, d2))
  {
    hide WellPlaced, Slots, AddAll;
    var slots := Slots(img, rva, rva + size);
    PlacedSlots(img, rva, rva + size);
    SameSlots(img, rva, rva + size, d1);
    ComposeSlots(img, slots, d1, d2);
    AddZero(img, slots);
  }

  lemma PlacedSlots(img: Image, rva: nat, end: nat)
    requires WellPlaced(img, rva, end)
    ensures Inside(Slots(img, rva, end), |img|)
  {
  }

  // ----- The walk in place

  lemma {:induction false} BlockPrefix(img: Image, p: nat, n: nat, m: nat, lo: nat, hi: nat)
    requires n <= m && OutOfTable(BlockSlots(img, p, m), |img|, lo, hi)
    ensures OutOfTable(BlockSlots(img, p, n), |img|, lo, hi)
    decreases m
  {
    if n < m {
      var slots := BlockSlots(img, p, m);
      var front := BlockSlots(img, p, m - 1);
      forall i | 0 <= i < |front| ensures front[i] + 8 <= |img| && (front[i] + 8 <= lo || hi <= front[i]) {
        assert front[i] == slots[i];
      }
      BlockPrefix(img, p, n, m - 1, lo, hi);
    }
  }

  /** One more entry adds its slot, or nothing. */
  lemma BlockStep(img: Image, p: nat, i: nat, delta: int)
    requires Inside(BlockSlots(img, p, i), |img|)
    requires EntryType(img, p, i) == DIR64 ==> EntrySlot(img, p, i) + 8 <= |img|
    ensures Inside(BlockSlots(img, p, i + 1), |img|)
    ensures AddAll(img, BlockSlots(img, p, i + 1), delta) ==
      var before := AddAll(img, BlockSlots(img, p, i), delta);
      if EntryType(img, p, i) == DIR64 then AddAt(before, EntrySlot(img, p, i), delta) else before
  {
    hide AddAt;
    var slots := BlockSlots(img, p, i);
    if EntryType(img, p, i) == DIR64 {
      assert (slots + [EntrySlot(img, p, i)])[..|slots|] == slots;
    } else {
      assert slots + [] == slots;
    }
  }

  lemma SlotOutOfTable(img: Image, p: nat, i: nat, lo: nat, hi: nat)
    requires OutOfTable(BlockSlots(img, p, i + 1), |img|, lo, hi)
    ensures EntryType(img, p, i) == DIR64 ==>
      var t := EntrySlot(img, p, i); t + 8 <= |img| && (t + 8 <= lo || hi <= t)
  {
    if EntryType(img, p, i) == DIR64 {
      assert BlockSlots(img, p, i + 1)[|BlockSlots(img, p, i)|] == EntrySlot(img, p, i);
    }
  }

  lemma StillAgrees(img: Image, before: Image, t: nat, delta: int, lo: nat, hi: nat)
    requires Agree(img, before, lo, hi) && t + 8 <= |before| && (t + 8 <= lo || hi <= t)
    ensures Agree(img, AddAt(before, t, delta), lo, hi)
  {
  }

  method ReadU16(image: array<byte>, p: nat) returns (v: nat)
    requires p + 2 <= image.Length
    ensures v == Rd16(image[..], p)
  {
    var lo: int, hi: int := image[p], image[p + 1];
    return lo + 0x100 * hi;
  }

  method ReadU32(image: array<byte>, p: nat) returns (v: nat)
    requires p + 4 <= image.Length
    ensures v == Rd32(image[..], p)
  {
    var lo := ReadU16(image, p);
    var hi := ReadU16(image, p + 2);
    return lo + 0x1_0000 * hi;
  }

  /** One patched slot: load, add, store. */
  method Patch(image: array<byte>, t: nat, delta: Int64)
    requires t + 8 <= image.Length
    modifies image
    ensures image[..] == AddAt(old(image[..]), t, delta)
  {
    hide ToLe, FromLe;
    var bs := ToLe(FromLe(image[t..t + 8]) + delta, 8);
    assert image[t..t + 8] == image[..][t..t + 8];
    forall k | 0 <= k < 8 {
      image[t + k] := bs[k];
    }
    assert image[..] == old(image[..])[..t] + bs + old(image[..])[t + 8..];
  }

  /** The image img with the first i entries of the block at p applied. */
  ghost predicate Applied(cur: Image, img: Image, p: nat, i: nat, delta: int, lo: nat, hi: nat) {
    && OutOfTable(BlockSlots(img, p, i), |img|, lo, hi)
    && cur == AddAll(img, BlockSlots(img, p, i), delta) && Agree(img, cur, lo, hi)
  }

  lemma SameEntry(img: Image, cur: Image, p: nat, i: nat, lo: nat, hi: nat)
    requires Agree(img, cur, lo, hi) && lo <= p && p + 8 + 2 * (i + 1) <= hi
    ensures EntryType(cur, p, i) == EntryType(img, p, i) && EntrySlot(cur, p, i) == EntrySlot(img, p, i)
  {
  }

  /** The image after entry i. */
  lemma EntryApplied(cur: Image, img: Image, p: nat, i: nat, delta: int, lo: nat, hi: nat)
    requires Applied(cur, img, p, i, delta, lo, hi) && OutOfTable(BlockSlots(img, p, i + 1), |img|, lo, hi)
    ensures EntryType(img, p, i) == DIR64 ==>
      var t := EntrySlot(img, p, i); t + 8 <= |cur| && Applied(AddAt(cur, t, delta), img, p, i + 1, delta, lo, hi)
    ensures EntryType(img, p, i) != DIR64 ==> Applied(cur, img, p, i + 1, delta, lo, hi)
  {
    hide AddAll, BlockSlots, Agree, AddAt;
    SlotOutOfTable(img, p, i, lo, hi);
    BlockStep(img, p, i, delta);
    if EntryType(img, p, i) == DIR64 {
      StillAgrees(img, cur, EntrySlot(img, p, i), delta, lo, hi);
    }
  }

  /** The entries of one block. Its slots do not touch the table. */
  method WalkBlock(image: array<byte>, p: nat, cnt: nat, delta: Int64, ghost lo: nat, ghost hi: nat)
    requires lo <= p && p + 8 + 2 * cnt <= hi <= image.Length
    requires OutOfTable(BlockSlots(image[..], p, cnt), image.Length, lo, hi)
    modifies image
    ensures Applied(image[..], old(image[..]), p, cnt, delta, lo, hi)
  {
    hide AddAll, BlockSlots, Agree, AddAt, Rd16, Rd32;
    ghost var img := image[..];
    NothingApplied(img, p, delta, lo, hi);
    var i := 0;
    while i < cnt
      invariant 0 <= i <= cnt && image.Length == |img|
      invariant Applied(image[..], img, p, i, delta, lo, hi)
    {
      BlockPrefix(img, p, i + 1, cnt, lo, hi);
      EntryApplied(image[..], img, p, i, delta, lo, hi);
      SameEntry(img, image[..], p, i, lo, hi);
      var page := ReadU32(image, p);
      var e := ReadU16(image, p + 8 + 2 * i);
      if e / 0x1000 == DIR64 {
        Patch(image, page + e % 0x1000, delta);
      }
      i := i + 1;
    }
  }

  lemma NothingApplied(img: Image, p: nat, delta: int, lo: nat, hi: nat)
    ensures Applied(img, img, p, 0, delta, lo, hi)
  {
  }

  lemma {:induction false} AddAllAppend(img: Image, a: seq<nat>, b: seq<nat>, delta: int)
    requires Inside(a, |img|) && Inside(b, |img|)
    ensures Inside(a + b, |img|) && AddAll(img, a + b, delta) == AddAll(AddAll(img, a, delta), b, delta)
    decreases |b|
  {
    if b == [] {
      assert a + b == a;
    } else {
      assert (a + b)[..|a + b| - 1] == a + b[..|b| - 1];
      AddAllAppend(img, a, b[..|b| - 1], delta);
    }
  }

  /** The image cur, with the slots `done` of the blocks before p applied to img. */
  ghost predicate WalkedTo(cur: Image, img: Image, done: seq<nat>, rva: nat, p: nat, end: nat, lim: nat, delta: int) {
    && rva <= p && end <= lim <= |img| && Stop(img, p, end) <= lim
    && Slots(img, rva, end) == done + Slots(img, p, end)
    && Inside(done, |img|) && cur == AddAll(img, done, delta) && Agree(img, cur, rva, lim)
    && OutOfTable(Slots(img, p, end), |img|, rva, lim)
  }

  lemma WalkStarts(img: Image, rva: nat, end: nat, delta: int)
    requires WellPlaced(img, rva, end)
    ensures WalkedTo(img, img, [], rva, rva, end, Limit(img, rva, end), delta)
  {
    hide Slots, Stop;
    assert [] + Slots(img, rva, end) == Slots(img, rva, end);
  }

  /** What the walk may rely on at a block. */
  lemma BlockReady(cur: Image, img: Image, done: seq<nat>, rva: nat, p: nat, end: nat, lim: nat, delta: int)
    requires WalkedTo(cur, img, done, rva, p, end, lim, delta) && p + 8 <= end
    ensures BlockSize(cur, p) == BlockSize(img, p)
    ensures BlockSize(img, p) < 8 ==> Slots(img, rva, end) == done
    ensures BlockSize(img, p) >= 8 ==>
      && p + 8 + 2 * EntryCount(img, p) <= lim
      && BlockSlots(cur, p, EntryCount(img, p)) == BlockSlots(img, p, EntryCount(img, p))
      && OutOfTable(BlockSlots(img, p, EntryCount(img, p)), |img|, rva, lim)
  {
    hide BlockSlots, AddAll;
    BlockAgrees(img, cur, rva, lim, p, 0);
    if BlockSize(img, p) >= 8 {
      var n := EntryCount(img, p);
      BlockAgrees(img, cur, rva, lim, p, n);
      FirstPart(BlockSlots(img, p, n), Slots(img, p + BlockSize(img, p), end), |img|, rva, lim);
    } else {
      assert done + [] == done;
    }
  }

  lemma FirstPart(a: seq<nat>, b: seq<nat>, n: nat, lo: nat, hi: nat)
    requires OutOfTable(a + b, n, lo, hi)
    ensures OutOfTable(a, n, lo, hi) && OutOfTable(b, n, lo, hi)
  {
    forall i | 0 <= i < |a| ensures a[i] + 8 <= n && (a[i] + 8 <= lo || hi <= a[i]) {
      assert a[i] == (a + b)[i];
    }
    forall i | 0 <= i < |b| ensures b[i] + 8 <= n && (b[i] + 8 <= lo || hi <= b[i]) {
      assert b[i] == (a + b)[|a| + i];
    }
  }

  lemma AgreeThrough(a: Image, b: Image, c: Image, lo: nat, hi: nat)
    requires Agree(a, b, lo, hi) && Agree(b, c, lo, hi)
    ensures Agree(a, c, lo, hi)
  {
  }

  lemma BlockDone(cur: Image, next: Image, img: Image, done: seq<nat>, rva: nat, p: nat, end: nat, lim: nat, delta: int)
    requires WalkedTo(cur, img, done, rva, p, end, lim, delta) && HasBlock(img, p, end)
    requires Inside(BlockSlots(img, p, EntryCount(img, p)), |cur|)
    requires next == AddAll(cur, BlockSlots(img, p, EntryCount(img, p)), delta) && Agree(cur, next, rva, lim)
    ensures WalkedTo(next, img, done + BlockSlots(img, p, EntryCount(img, p)), rva, p + BlockSize(img, p), end, lim,
                     delta)
  {
    hide BlockSlots, AddAll, Agree, OutOfTable;
    var b, rest := BlockSlots(img, p, EntryCount(img, p)), Slots(img, p + BlockSize(img, p), end);
    AddAllAppend(img, done, b, delta);
    AgreeThrough(img, cur, next, rva, lim);
    FirstPart(b, rest, |img|, rva, lim);
    assert (done + b) + rest == done + (b + rest);
  }

  /** The base-relocation loop of the loader, on the mapped image. */
  method ApplyRelocations(image: array<byte>, rva: nat, size: nat, delta: Int64)
    requires rva != 0 && delta != 0 ==> WellPlaced(image[..], rva, rva + size)
    modifies image
    ensures image[..] == Relocated(old(image[..]), rva, size, delta)
  {
    hide WellPlaced, WalkedTo, AddAll, Slots, Agree, BlockSlots, OutOfTable;
    if rva == 0 || delta == 0 { return; }
    ghost var img := image[..];
    var p, end := rva, rva + size;
    ghost var done: seq<nat>, lim := [], Limit(img, rva, end);
    WalkStarts(img, rva, end, delta);
    while p + 8 <= end
      invariant image.Length == |img| && WalkedTo(image[..], img, done, rva, p, end, lim, delta)
      decreases end - p
    {
      WalkBounds(image[..], img, done, rva, p, end, lim, delta);
      BlockReady(image[..], img, done, rva, p, end, lim, delta);
      ghost var cur := image[..];
      var blk := ReadU32(image, p + 4);
      if blk < 8 {
        return;
      }
      var cnt := (blk - 8) / 2;
      WalkBlock(image, p, cnt, delta, rva, lim);
      assert Applied(image[..], cur, p, cnt, delta, rva, lim);
      OutInside(BlockSlots(img, p, cnt), |img|, rva, lim);
      BlockDone(cur, image[..], img, done, rva, p, end, lim, delta);
      done := done + BlockSlots(img, p, cnt);
      p := p + blk;
    }
    WalkEnds(image[..], img, done, rva, p, end, lim, delta);
  }

  lemma OutInside(slots: seq<nat>, n: nat, lo: nat, hi: nat)
    requires OutOfTable(slots, n, lo, hi)
    ensures Inside(slots, n)
  {
  }

  lemma WalkBounds(cur: Image, img: Image, done: seq<nat>, rva: nat, p: nat, end: nat, lim: nat, delta: int)
    requires WalkedTo(cur, img, done, rva, p, end, lim, delta)
    ensures rva <= p && end <= lim <= |img| == |cur| && cur == AddAll(img, done, delta)
  {
    hide AddAll;
  }

  lemma WalkEnds(cur: Image, img: Image, done: seq<nat>, rva: nat, p: nat, end: nat, lim: nat, delta: int)
    requires WalkedTo(cur, img, done, rva, p, end, lim, delta) && p + 8 > end
    ensures cur == AddAll(img, Slots(img, rva, end), delta)
  {
    hide AddAll;
    assert done + [] == done;
  }
}
