/** Relocation tables as a linker writes them (section ".reloc" of the Microsoft PE/COFF specification):
    the walk finds exactly the places they name. */
module RelocationTable {
  import opened Bytes
  import opened Relocation

  /** One entry: a type in four bits and an offset into the page in twelve. */
  datatype Fixup = Fixup(kind: nat, offset: nat)

  /** The fixups of one page. */
  datatype Block = Block(page: nat, fixups: seq<Fixup>)

  predicate Writable(b: Block) {
    && b.page < 0x1_0000_0000 && 8 + 2 * |b.fixups| < 0x1_0000_0000
    && forall i :: 0 <= i < |b.fixups| ==> b.fixups[i].kind < 16 && b.fixups[i].offset < 4096
  }

  predicate AllWritable(bs: seq<Block>) {
    forall i :: 0 <= i < |bs| ==> Writable(bs[i])
  }

  function FixupBytes(fs: seq<Fixup>): (r: seq<byte>)
    ensures |r| == 2 * |fs|
  {
    if fs == [] then []
    else FixupBytes(fs[..|fs| - 1]) + ToLe(4096 * fs[|fs| - 1].kind + fs[|fs| - 1].offset, 2)
  }

  function BlockBytes(b: Block): (r: seq<byte>)
    ensures |r| == 8 + 2 * |b.fixups|
  {
    ToLe(b.page, 4) + ToLe(8 + 2 * |b.fixups|, 4) + FixupBytes(b.fixups)
  }

  function TableBytes(bs: seq<Block>): seq<byte> {
    if bs == [] then [] else BlockBytes(bs[0]) + TableBytes(bs[1..])
  }

  /** The addresses that the fixups of type 10 name: offsets into their page. */
  function Named(page: nat, fs: seq<Fixup>): seq<nat> {
    if fs == [] then []
    else Named(page, fs[..|fs| - 1]) + if fs[|fs| - 1].kind == 10 then [page + fs[|fs| - 1].offset] else []
  }

  function AllNamed(bs: seq<Block>): seq<nat> {
    if bs == [] then [] else Named(bs[0].page, bs[0].fixups) + AllNamed(bs[1..])
  }

  /** The octets bs are in the image at p. */
  predicate InPlace(img: Image, p: nat, bs: seq<byte>) {
    p + |bs| <= |img| && img[p..p + |bs|] == bs
  }

  lemma PartInPlace(img: Image, p: nat, a: seq<byte>, b: seq<byte>)
    requires InPlace(img, p, a + b)
    ensures InPlace(img, p, a) && InPlace(img, p + |a|, b)
  {
    assert img[p..p + |a|] == img[p..p + |a + b|][..|a|];
    assert img[p + |a|..p + |a| + |b|] == img[p..p + |a + b|][|a|..];
  }

  lemma Reads16(img: Image, p: nat, v: nat)
    requires v < 0x1_0000 && InPlace(img, p, ToLe(v, 2))
    ensures Rd16(img, p) == v
  {
    assert ToLe(v, 2) == [v % 256] + ToLe(v / 256, 1) && ToLe(v / 256, 1) == [v / 256 % 256] + ToLe(v / 256 / 256, 0);
    assert img[p] == img[p..p + 2][0] && img[p + 1] == img[p..p + 2][1];
  }

  lemma FourOctets(v: nat)
    ensures ToLe(v, 4) == ToLe(v % 0x1_0000, 2) + ToLe(v / 0x1_0000, 2)
  {
    var q := v / 0x1_0000;
    assert v / 256 / 256 == q;
    assert v % 0x1_0000 % 256 == v % 256 && v % 0x1_0000 / 256 % 256 == v / 256 % 256;
    assert ToLe(v, 4) == [v % 256] + ToLe(v / 256, 3) && ToLe(v / 256, 3) == [v / 256 % 256] + ToLe(v / 256 / 256, 2);
    var u := v % 0x1_0000;
    assert ToLe(u, 2) == [u % 256] + ToLe(u / 256, 1) && ToLe(u / 256, 1) == [u / 256 % 256] + ToLe(u / 256 / 256, 0);
  }

  lemma Reads32(img: Image, p: nat, v: nat)
    requires v < 0x1_0000_0000 && InPlace(img, p, ToLe(v, 4))
    ensures Rd32(img, p) == v
  {
    hide ToLe, Rd16;
    FourOctets(v);
    PartInPlace(img, p, ToLe(v % 0x1_0000, 2), ToLe(v / 0x1_0000, 2));
    Reads16(img, p, v % 0x1_0000);
    Reads16(img, p + 2, v / 0x1_0000);
  }

  lemma {:induction false} BlockNamed(img: Image, p: nat, page: nat, fs: seq<Fixup>)
    requires Writable(Block(page, fs)) && Rd32(img, p) == page && InPlace(img, p + 8, FixupBytes(fs))
    ensures BlockSlots(img, p, |fs|) == Named(page, fs)
    decreases |fs|
  {
    hide ToLe, Rd16, Rd32;
    if fs != [] {
      var front, last := fs[..|fs| - 1], fs[|fs| - 1];
      var e := 4096 * last.kind + last.offset;
      PartInPlace(img, p + 8, FixupBytes(front), ToLe(e, 2));
      BlockNamed(img, p, page, front);
      Reads16(img, p + 8 + 2 * |front|, e);
      UniqueRemainder(e, 4096, last.kind, last.offset);
    }
  }

  lemma HeaderReads(img: Image, p: nat, b: Block)
    requires Writable(b) && InPlace(img, p, BlockBytes(b))
    ensures Rd32(img, p) == b.page && BlockSize(img, p) == 8 + 2 * |b.fixups|
    ensures InPlace(img, p + 8, FixupBytes(b.fixups))
  {
    hide ToLe, Rd32, FixupBytes;
    var size := 8 + 2 * |b.fixups|;
    PartInPlace(img, p, ToLe(b.page, 4) + ToLe(size, 4), FixupBytes(b.fixups));
    PartInPlace(img, p, ToLe(b.page, 4), ToLe(size, 4));
    Reads32(img, p, b.page);
    Reads32(img, p + 4, size);
  }

  /** In an image that holds a written table, the walk over it stops at its end, and its slots are the
      addresses that the table's type-10 fixups name, in order. */
  lemma {:induction false} WalkFindsNamed(img: Image, rva: nat, bs: seq<Block>)
    requires AllWritable(bs) && InPlace(img, rva, TableBytes(bs))
    ensures Slots(img, rva, rva + |TableBytes(bs)|) == AllNamed(bs)
    ensures Stop(img, rva, rva + |TableBytes(bs)|) == rva + |TableBytes(bs)|
    decreases |bs|
  {
    hide BlockBytes, BlockSlots, Named, BlockSize, Rd32;
    if bs != [] {
      var b, rest := bs[0], bs[1..];
      var end, next := rva + |TableBytes(bs)|, rva + |BlockBytes(b)|;
      PartInPlace(img, rva, BlockBytes(b), TableBytes(rest));
      HeaderReads(img, rva, b);
      BlockNamed(img, rva, b.page, b.fixups);
      WalkFindsNamed(img, next, rest);
      assert next + |TableBytes(rest)| == end;
      assert EntryCount(img, rva) == |b.fixups|;
    }
  }

  /** Such a table is well placed exactly if the addresses it names lie in the image and off the table. */
  lemma TableWellPlaced(img: Image, rva: nat, bs: seq<Block>)
    requires AllWritable(bs) && InPlace(img, rva, TableBytes(bs))
    ensures WellPlaced(img, rva, rva + |TableBytes(bs)|) <==>
      OutOfTable(AllNamed(bs), |img|, rva, rva + |TableBytes(bs)|)
  {
    hide TableBytes, AllNamed, Slots, Stop, OutOfTable;
    WalkFindsNamed(img, rva, bs);
  }
}
