/** The .nvfgw weight file: the octets the training exporter writes, and the runtime's parser. */
module WeightFile {
  import opened Bytes

  type U16 = x: int | 0 <= x < 0x1_0000

  datatype Header = Header(version: U32, base: U32, cin: U32, mode: U32)

  /** fp16 weights in row-major order, as raw 16-bit patterns. */
  datatype Tensor = Tensor(dims: seq<int>, half: seq<U16>)

  datatype Entry = Entry(name: seq<byte>, tensor: Tensor)

  const MAGIC: seq<byte> := [0x4E, 0x56, 0x46, 0x47, 0x57, 0x01, 0x00, 0x00]   // "NVFGW" 1 0 0

  const MAX_COUNT: int := 0x1000_0000

  // ----- The writer

  function HalfBytes(half: seq<U16>): (bs: seq<byte>)
    ensures |bs| == 2 * |half|
  {
    if half == [] then [] else ToLe(half[0], 2) + HalfBytes(half[1..])
  }

  function DimBytes(dims: seq<int>): (bs: seq<byte>)
    ensures |bs| == 4 * |dims|
  {
    if dims == [] then [] else ToLe(dims[0], 4) + DimBytes(dims[1..])
  }

  function EntryBytes(e: Entry): seq<byte> {
    ToLe(|e.name|, 4) + (e.name + (ToLe(|e.tensor.dims|, 4) + (DimBytes(e.tensor.dims) + HalfBytes(e.tensor.half))))
  }

  function EntriesBytes(es: seq<Entry>): seq<byte> {
    if es == [] then [] else EntryBytes(es[0]) + EntriesBytes(es[1..])
  }

  function HeaderBytes(h: Header): seq<byte> {
    ToLe(h.version, 4) + (ToLe(h.base, 4) + (ToLe(h.cin, 4) + ToLe(h.mode, 4)))
  }

  function FileBytes(h: Header, es: seq<Entry>): seq<byte> {
    MAGIC + (HeaderBytes(h) + (ToLe(|es|, 4) + EntriesBytes(es)))
  }

  const SAMPLE: Entry := Entry([0x77], Tensor([2, 1], [0x3C00, 0xC000]))

  lemma SampleRecord()
    ensures EntryBytes(SAMPLE) ==
      [1, 0, 0, 0] + [0x77] + [2, 0, 0, 0] + [2, 0, 0, 0] + [1, 0, 0, 0] + [0x00, 0x3C, 0x00, 0xC0]
  {
    hide ToLe, DimBytes, HalfBytes;
    SmallNumber(1);
    SmallNumber(2);
    SampleData();
  }

  lemma SampleData()
    ensures DimBytes([2, 1]) == [2, 0, 0, 0] + [1, 0, 0, 0]
    ensures HalfBytes([0x3C00, 0xC000]) == [0x00, 0x3C, 0x00, 0xC0]
  {
    hide DimBytes, HalfBytes, ToLe;
    assert [2, 1] == [2] + [1] && [0x3C00, 0xC000] == [0x3C00] + [0xC000];
    OneDim(1);
    DimsCons(2, [1]);
    SmallNumber(2);
    OneHalf(0xC000);
    HalvesCons(0x3C00, [0xC000]);
    SampleHalf(0x3C00);
  }

  lemma OneDim(n: byte)
    ensures DimBytes([n]) == [n, 0, 0, 0]
  {
    hide ToLe;
    SmallNumber(n);
    assert [n][1..] == [];
  }

  lemma DimsCons(n: int, dims: seq<int>)
    ensures DimBytes([n] + dims) == ToLe(n, 4) + DimBytes(dims)
  {
    hide ToLe;
    assert ([n] + dims)[1..] == dims;
  }

  lemma OneHalf(x: U16)
    ensures HalfBytes([x]) == [x % 256, x / 256]
  {
    hide ToLe;
    SampleHalf(x);
    assert [x][1..] == [];
  }

  lemma HalvesCons(x: U16, half: seq<U16>)
    ensures HalfBytes([x] + half) == ToLe(x, 2) + HalfBytes(half)
  {
    hide ToLe;
    assert ([x] + half)[1..] == half;
  }

  /** A whole file, octet by octet: version 1, base 24, 12 input channels, mode 1, and one tensor "w" of
      two rows of one value, 1.0 and -2.0 in half precision. */
  lemma SampleFile()
    ensures FileBytes(Header(1, 24, 12, 1), [SAMPLE]) ==
      [0x4E, 0x56, 0x46, 0x47, 0x57, 1, 0, 0] + [1, 0, 0, 0] + [24, 0, 0, 0] + [12, 0, 0, 0] + [1, 0, 0, 0] +
      [1, 0, 0, 0] +
      ([1, 0, 0, 0] + [0x77] + [2, 0, 0, 0] + [2, 0, 0, 0] + [1, 0, 0, 0] + [0x00, 0x3C, 0x00, 0xC0])
  {
    hide ToLe, EntryBytes;
    SmallNumber(1);
    SmallNumber(12);
    SmallNumber(24);
    SampleRecord();
    assert EntriesBytes([SAMPLE]) == EntryBytes(SAMPLE) + [];
  }

  lemma SmallNumber(n: byte)
    ensures ToLe(n, 4) == [n, 0, 0, 0]
  {
    assert ToLe(0, 0) == [] && ToLe(0, 1) == [0] && ToLe(0, 2) == [0, 0] && ToLe(0, 3) == [0, 0, 0];
  }

  lemma SampleHalf(x: U16)
    ensures ToLe(x, 2) == [x % 256, x / 256]
  {
    assert ToLe(x / 256, 1) == [x / 256] + ToLe(0, 0);
  }

  // ----- The parser, from what is left of the file to what is left after it

  /** rd32: zero when fewer than four octets are left, which are then gone too. */
  function Rd32(bs: seq<byte>): (r: (U32, seq<byte>))
    ensures |r.1| <= |bs|
  {
    if |bs| < 4 then (0, [])
    else
      StoreOfLoad(bs[..4]);
      RadixValues();
      (FromLe(bs[..4]), bs[4..])
  }

  /** Reduction to a signed 64-bit integer. */
  function Wrap64(x: int): int {
    (x + 0x8000_0000_0000_0000) % 0x1_0000_0000_0000_0000 - 0x8000_0000_0000_0000
  }

  /** The element count, multiplied up in a 64-bit integer. */
  function Count(acc: int, dims: seq<int>): int
    decreases dims
  {
    if dims == [] then acc else Count(Wrap64(acc * dims[0]), dims[1..])
  }

  function ReadDims(bs: seq<byte>, n: nat): (r: (seq<int>, seq<byte>))
    ensures |r.0| == n && |r.1| <= |bs|
    decreases n
  {
    if n == 0 then ([], bs)
    else
      var (d, rest) := Rd32(bs);
      var (ds, rest') := ReadDims(rest, n - 1);
      ([AsInt(d)] + ds, rest')
  }

  function Halves(bs: seq<byte>): (half: seq<U16>)
    requires |bs| % 2 == 0
    ensures |half| == |bs| / 2
  {
    if bs == [] then []
    else
      StoreOfLoad(bs[..2]);
      RadixValues();
      [FromLe(bs[..2])] + Halves(bs[2..])
  }

  /** One tensor record, or None where the loader gives up. */
  function ReadEntry(bs: seq<byte>): (r: Option<(Entry, seq<byte>)>)
    ensures r.Some? ==> |r.value.1| < |bs|
  {
    var (nl, b1) := Rd32(bs);
    if nl == 0 || nl > 256 || |b1| < nl then None
    else
      var name, b2 := b1[..nl], b1[nl..];
      var (nd, b3) := Rd32(b2);
      if nd == 0 || nd > 8 then None
      else
        var (dims, b4) := ReadDims(b3, nd);
        var cnt := Count(1, dims);
        if cnt <= 0 || cnt > MAX_COUNT || |b4| < 2 * cnt then None
        else Some((Entry(name, Tensor(dims, Halves(b4[..2 * cnt]))), b4[2 * cnt..]))
  }

  /** What the loop over n records has read when it ends or gives up. */
  datatype Progress = Progress(entries: seq<Entry>, rest: seq<byte>, ok: bool)

  function ReadEntries(bs: seq<byte>, n: nat): Progress
    decreases n
  {
    if n == 0 then Progress([], bs, true)
    else match ReadEntry(bs)
      case None => Progress([], bs, false)
      case Some((e, rest)) =>
        var p := ReadEntries(rest, n - 1);
        Progress([e] + p.entries, p.rest, p.ok)
  }

  datatype Parsed = BadMagic | Parsed(header: Header, body: Progress)

  function ReadHeader(bs: seq<byte>): (Header, seq<byte>) {
    var (v, b1) := Rd32(bs);
    var (b, b2) := Rd32(b1);
    var (c, b3) := Rd32(b2);
    var (m, b4) := Rd32(b3);
    (Header(v, b, c, m), b4)
  }

  function Parse(bs: seq<byte>): Parsed {
    if |bs| < 8 || bs[..8] != MAGIC then BadMagic
    else
      var (h, b1) := ReadHeader(bs[8..]);
      var (n, b2) := Rd32(b1);
      Parsed(h, ReadEntries(b2, n))
  }

  // ----- The two are inverse

  /** What the loader accepts of one tensor. */
  predicate Loadable(e: Entry) {
    && 1 <= |e.name| <= 256 && 1 <= |e.tensor.dims| <= 8
    && (forall d <- e.tensor.dims :: -0x8000_0000 <= d < 0x8000_0000)
    && 1 <= Count(1, e.tensor.dims) <= MAX_COUNT && |e.tensor.half| == Count(1, e.tensor.dims)
  }

  /** The limit on a tensor's size, for a vector: two to the power 28 values load, and no more. */
  lemma VectorLoadableIff(name: seq<byte>, half: seq<U16>)
    requires |half| < 0x8000_0000
    ensures Loadable(Entry(name, Tensor([|half|], half))) <==> 1 <= |name| <= 256 && 1 <= |half| <= 268_435_456
  {
    assert Count(1, [|half|]) == |half| by {
      assert [|half|][1..] == [];
      assert Wrap64(1 * |half|) == |half|;
    }
  }

  lemma Rd32OfStore(v: int, rest: seq<byte>)
    ensures Rd32(ToLe(v, 4) + rest) == (v % 0x1_0000_0000, rest)
  {
    RadixValues();
    LoadOfStore(v, 4);
    assert (ToLe(v, 4) + rest)[..4] == ToLe(v, 4);
    assert (ToLe(v, 4) + rest)[4..] == rest;
  }

  lemma StoreOfRd32(bs: seq<byte>)
    requires |bs| >= 4
    ensures bs == ToLe(Rd32(bs).0, 4) + Rd32(bs).1
  {
    StoreOfLoad(bs[..4]);
  }

  lemma SignedStore(x: U32)
    ensures ToLe(AsInt(x), 4) == ToLe(x, 4)
  {
    if x >= 0x8000_0000 {
      StoreMod(x - 0x1_0000_0000, 4);
      RadixValues();
      UniqueRemainder(x - 0x1_0000_0000, 0x1_0000_0000, -1, x);
    }
  }

  /** A store only sees its value modulo the width. */
  lemma {:induction false} StoreMod(v: int, n: nat)
    ensures ToLe(v, n) == ToLe(v % Radix(n), n)
  {
    LoadOfStore(v, n);
    StoreOfLoad(ToLe(v, n));
  }

  lemma SignedLoad(d: int)
    requires -0x8000_0000 <= d < 0x8000_0000
    ensures AsInt(d % 0x1_0000_0000) == d
  {
    if d < 0 {
      UniqueRemainder(d, 0x1_0000_0000, -1, d + 0x1_0000_0000);
    }
  }

  lemma {:induction false} DimsRoundTrip(dims: seq<int>, rest: seq<byte>)
    requires forall d <- dims :: -0x8000_0000 <= d < 0x8000_0000
    ensures ReadDims(DimBytes(dims) + rest, |dims|) == (dims, rest)
  {
    hide ToLe, FromLe, Rd32;
    if dims == [] {
      assert DimBytes(dims) + rest == rest;
    } else {
      var tail := DimBytes(dims[1..]) + rest;
      ConcatAssoc(ToLe(dims[0], 4), DimBytes(dims[1..]), rest);
      assert [dims[0]] + dims[1..] == dims;
      assert dims[0] in dims;
      assert forall d :: d in dims[1..] ==> d in dims;
      Rd32OfStore(dims[0], tail);
      SignedLoad(dims[0]);
      DimsRoundTrip(dims[1..], rest);
    }
  }

  lemma {:induction false} DimsFromBytes(bs: seq<byte>, n: nat)
    requires |bs| >= 4 * n
    ensures bs == DimBytes(ReadDims(bs, n).0) + ReadDims(bs, n).1
    ensures forall d <- ReadDims(bs, n).0 :: -0x8000_0000 <= d < 0x8000_0000
    decreases n
  {
    hide ToLe, FromLe, Rd32;
    if n > 0 {
      var (d, rest) := Rd32(bs);
      StoreOfRd32(bs);
      SignedStore(d);
      DimsFromBytes(rest, n - 1);
      var ds := ReadDims(rest, n - 1).0;
      assert ([AsInt(d)] + ds)[1..] == ds;
      ConcatAssoc(ToLe(d, 4), DimBytes(ds), ReadDims(rest, n - 1).1);
    }
  }

  /** Too few octets for the dimensions leave a zero among them, and so a zero count. */
  lemma {:induction false} ShortDims(bs: seq<byte>, n: nat)
    requires |bs| < 4 * n
    ensures 0 in ReadDims(bs, n).0
    decreases n
  {
    var (d, rest) := Rd32(bs);
    if |bs| >= 4 {
      ShortDims(rest, n - 1);
    }
  }

  lemma {:induction false} ZeroStays(dims: seq<int>)
    ensures Count(0, dims) == 0
  {
    if dims != [] {
      ZeroStays(dims[1..]);
    }
  }

  lemma {:induction false} ZeroCount(acc: int, dims: seq<int>)
    requires 0 in dims
    ensures Count(acc, dims) == 0
    decreases dims
  {
    if dims[0] == 0 {
      ZeroStays(dims[1..]);
    } else {
      ZeroCount(Wrap64(acc * dims[0]), dims[1..]);
    }
  }

  lemma {:induction false} HalvesRoundTrip(half: seq<U16>)
    ensures Halves(HalfBytes(half)) == half
  {
    if half != [] {
      RadixValues();
      LoadOfStore(half[0], 2);
      assert HalfBytes(half)[..2] == ToLe(half[0], 2);
      assert HalfBytes(half)[2..] == HalfBytes(half[1..]);
      HalvesRoundTrip(half[1..]);
    }
  }

  lemma {:induction false} BytesOfHalves(bs: seq<byte>)
    requires |bs| % 2 == 0
    ensures HalfBytes(Halves(bs)) == bs
  {
    if bs != [] {
      StoreOfLoad(bs[..2]);
      BytesOfHalves(bs[2..]);
      assert Halves(bs)[1..] == Halves(bs[2..]);
      assert bs == bs[..2] + bs[2..];
    }
  }

  // ----- One tensor record

  /** The parts of a record, read in turn. */
  lemma EntryRoundTrip(e: Entry, rest: seq<byte>)
    requires Loadable(e)
    ensures ReadEntry(EntryBytes(e) + rest) == Some((e, rest))
  {
    hide ToLe, FromLe, Rd32, ReadDims, DimBytes, HalfBytes, Halves, Count;
    var data := HalfBytes(e.tensor.half) + rest;
    var dims := DimBytes(e.tensor.dims) + data;
    var nd := ToLe(|e.tensor.dims|, 4) + dims;
    EntrySplit(e, rest);
    Rd32OfStore(|e.name|, e.name + nd);
    assert (e.name + nd)[..|e.name|] == e.name && (e.name + nd)[|e.name|..] == nd;
    Rd32OfStore(|e.tensor.dims|, dims);
    DimsRoundTrip(e.tensor.dims, data);
    assert data[..|HalfBytes(e.tensor.half)|] == HalfBytes(e.tensor.half) && data[|HalfBytes(e.tensor.half)|..] == rest;
    HalvesRoundTrip(e.tensor.half);
  }

  lemma EntrySplit(e: Entry, rest: seq<byte>)
    ensures EntryBytes(e) + rest == ToLe(|e.name|, 4) + (e.name + (ToLe(|e.tensor.dims|, 4) +
      (DimBytes(e.tensor.dims) + (HalfBytes(e.tensor.half) + rest))))
  {
    hide ToLe, DimBytes, HalfBytes;
    var a, b, c := ToLe(|e.name|, 4), e.name, ToLe(|e.tensor.dims|, 4);
    var d, f := DimBytes(e.tensor.dims), HalfBytes(e.tensor.half);
    ConcatAssoc(d, f, rest);
    ConcatAssoc(c, d + f, rest);
    ConcatAssoc(b, c + (d + f), rest);
    ConcatAssoc(a, b + (c + (d + f)), rest);
  }

  /** A record the parser accepts is one the writer could have written. */
  lemma EntryFromBytes(bs: seq<byte>)
    requires ReadEntry(bs).Some?
    ensures Loadable(ReadEntry(bs).value.0)
    ensures bs == EntryBytes(ReadEntry(bs).value.0) + ReadEntry(bs).value.1
  {
    hide ToLe, FromLe, Rd32, ReadDims, DimBytes, HalfBytes, Halves, Count;
    var (nl, b1) := Rd32(bs);
    var name, b2 := b1[..nl], b1[nl..];
    var (nd, b3) := Rd32(b2);
    var (dims, b4) := ReadDims(b3, nd);
    var cnt := Count(1, dims);
    var (e, rest) := ReadEntry(bs).value;
    NonZeroRead(bs);
    NonZeroRead(b2);
    if |b3| < 4 * nd {
      ShortDims(b3, nd);
      ZeroCount(1, dims);
    }
    DimsFromBytes(b3, nd);
    BytesOfHalves(b4[..2 * cnt]);
    EntrySplit(e, rest);
    assert b4 == b4[..2 * cnt] + rest;
    assert b1 == name + b2;
  }

  lemma NonZeroRead(bs: seq<byte>)
    ensures Rd32(bs).0 != 0 ==> |bs| >= 4 && bs == ToLe(Rd32(bs).0, 4) + Rd32(bs).1
  {
    if |bs| >= 4 {
      StoreOfRd32(bs);
    }
  }

  // ----- The whole file

  predicate AllLoadable(es: seq<Entry>) {
    forall e <- es :: Loadable(e)
  }

  lemma {:induction false} EntriesRoundTrip(es: seq<Entry>, rest: seq<byte>)
    requires AllLoadable(es)
    ensures ReadEntries(EntriesBytes(es) + rest, |es|) == Progress(es, rest, true)
  {
    hide EntryBytes, ReadEntry, Loadable;
    if es == [] {
      assert EntriesBytes(es) + rest == rest;
    } else {
      assert es[0] in es;
      ConcatAssoc(EntryBytes(es[0]), EntriesBytes(es[1..]), rest);
      EntryRoundTrip(es[0], EntriesBytes(es[1..]) + rest);
      EntriesRoundTrip(es[1..], rest);
      assert [es[0]] + es[1..] == es;
    }
  }

  lemma {:induction false} EntriesFromBytes(bs: seq<byte>, n: nat)
    requires ReadEntries(bs, n).ok
    ensures var p := ReadEntries(bs, n);
      |p.entries| == n && AllLoadable(p.entries) && bs == EntriesBytes(p.entries) + p.rest
    decreases n
  {
    hide EntryBytes, ReadEntry, Loadable;
    if n == 0 {
      assert EntriesBytes([]) + bs == bs;
    } else {
      var (e, rest) := ReadEntry(bs).value;
      EntryFromBytes(bs);
      EntriesFromBytes(rest, n - 1);
      var p := ReadEntries(rest, n - 1);
      assert ([e] + p.entries)[1..] == p.entries;
      ConcatAssoc(EntryBytes(e), EntriesBytes(p.entries), p.rest);
    }
  }

  lemma HeaderRoundTrip(h: Header, rest: seq<byte>)
    ensures ReadHeader(HeaderBytes(h) + rest) == (h, rest)
  {
    hide ToLe, Rd32;
    var a, b, c, d := ToLe(h.version, 4), ToLe(h.base, 4), ToLe(h.cin, 4), ToLe(h.mode, 4);
    ConcatAssoc(c, d, rest);
    ConcatAssoc(b, c + d, rest);
    ConcatAssoc(a, b + (c + d), rest);
    Rd32OfStore(h.version, b + (c + (d + rest)));
    Rd32OfStore(h.base, c + (d + rest));
    Rd32OfStore(h.cin, d + rest);
    Rd32OfStore(h.mode, rest);
  }

  lemma HeaderFromBytes(bs: seq<byte>)
    requires ReadHeader(bs).1 != []
    ensures bs == HeaderBytes(ReadHeader(bs).0) + ReadHeader(bs).1
  {
    hide ToLe, Rd32;
    var (v, b1) := Rd32(bs);
    var (b, b2) := Rd32(b1);
    var (c, b3) := Rd32(b2);
    var (m, b4) := Rd32(b3);
    LeftOver(b3);
    LeftOver(b2);
    LeftOver(b1);
    LeftOver(bs);
    ConcatAssoc(ToLe(c, 4), ToLe(m, 4), b4);
    ConcatAssoc(ToLe(b, 4), ToLe(c, 4) + ToLe(m, 4), b4);
    ConcatAssoc(ToLe(v, 4), ToLe(b, 4) + (ToLe(c, 4) + ToLe(m, 4)), b4);
  }

  lemma LeftOver(bs: seq<byte>)
    requires Rd32(bs).1 != []
    ensures bs != [] && bs == ToLe(Rd32(bs).0, 4) + Rd32(bs).1
  {
    StoreOfRd32(bs);
  }

  lemma ParseRoundTrip(h: Header, es: seq<Entry>, rest: seq<byte>)
    requires AllLoadable(es) && |es| < 0x1_0000_0000
    ensures Parse(FileBytes(h, es) + rest) == Parsed(h, Progress(es, rest, true))
  {
    hide ToLe, Rd32, HeaderBytes, EntriesBytes, ReadHeader, ReadEntries;
    var n, body := ToLe(|es|, 4), EntriesBytes(es);
    ConcatAssoc(n, body, rest);
    ConcatAssoc(HeaderBytes(h), n + body, rest);
    ConcatAssoc(MAGIC, HeaderBytes(h) + (n + body), rest);
    var file := FileBytes(h, es) + rest;
    assert file[..8] == MAGIC && file[8..] == HeaderBytes(h) + (n + (body + rest));
    HeaderRoundTrip(h, n + (body + rest));
    Rd32OfStore(|es|, body + rest);
    EntriesRoundTrip(es, rest);
  }

  lemma ParseFromBytes(bs: seq<byte>)
    requires Parse(bs).Parsed? && Parse(bs).body.ok && Parse(bs).body.entries != []
    ensures var p := Parse(bs);
      && AllLoadable(p.body.entries) && |p.body.entries| < 0x1_0000_0000
      && bs == FileBytes(p.header, p.body.entries) + p.body.rest
  {
    hide ToLe, Rd32, HeaderBytes, EntriesBytes, ReadHeader, AllLoadable;
    var (h, b1) := ReadHeader(bs[8..]);
    var (n, b2) := Rd32(b1);
    var p := ReadEntries(b2, n);
    EntriesFromBytes(b2, n);
    NonZeroRead(b1);
    HeaderFromBytes(bs[8..]);
    ConcatAssoc(ToLe(n, 4), EntriesBytes(p.entries), p.rest);
    ConcatAssoc(HeaderBytes(h), ToLe(n, 4) + EntriesBytes(p.entries), p.rest);
    ConcatAssoc(MAGIC, HeaderBytes(h) + (ToLe(n, 4) + EntriesBytes(p.entries)), p.rest);
    assert bs == MAGIC + bs[8..];
  }

  // ----- loadCnnModel

  datatype Model = Model(header: Header, tensors: map<seq<byte>, Tensor>, valid: bool)

  const NEW_MODEL: Model := Model(Header(0, 0, 0, 0), map[], false)

  /** Records stored under their names, in order. */
  function Insert(m: map<seq<byte>, Tensor>, es: seq<Entry>): map<seq<byte>, Tensor>
    decreases es
  {
    if es == [] then m else Insert(m[es[0].name := es[0].tensor], es[1..])
  }

  /** The model after a load, and the answer. A failing load keeps what it had stored by then. */
  function Load(bs: seq<byte>, m: Model): (Model, bool) {
    match Parse(bs)
    case BadMagic => (m, false)
    case Parsed(h, p) =>
      var tensors := Insert(m.tensors, p.entries);
      if !p.ok then (Model(h, tensors, m.valid), false)
      else (Model(h, tensors, |tensors| > 0), |tensors| > 0)
  }

  lemma {:induction false} InsertKeeps(m: map<seq<byte>, Tensor>, es: seq<Entry>)
    ensures m.Keys <= Insert(m, es).Keys
    ensures es != [] ==> es[0].name in Insert(m, es)
    decreases es
  {
    if es != [] {
      InsertKeeps(m[es[0].name := es[0].tensor], es[1..]);
    }
  }

  lemma InsertSize(es: seq<Entry>)
    ensures |Insert(map[], es)| > 0 <==> es != []
  {
    if es != [] {
      InsertKeeps(map[], es);
      assert es[0].name in Insert(map[], es).Keys;
    }
  }

  /** A fresh model accepts exactly the files that are a written file of at least one tensor within
      the limits, followed by anything; and it then holds that header and those tensors. */
  lemma AcceptsExactly(bs: seq<byte>)
    ensures Load(bs, NEW_MODEL).1 <==>
      exists h: Header, es: seq<Entry>, rest: seq<byte> :: IsFileThen(bs, h, es, rest)
  {
    if Load(bs, NEW_MODEL).1 {
      var p := Parse(bs);
      InsertSize(p.body.entries);
      ParseFromBytes(bs);
      assert IsFileThen(bs, p.header, p.body.entries, p.body.rest);
    }
    if h: Header, es: seq<Entry>, rest: seq<byte> :| IsFileThen(bs, h, es, rest) {
      LoadsWritten(h, es, rest);
    }
  }

  ghost predicate IsFileThen(bs: seq<byte>, h: Header, es: seq<Entry>, rest: seq<byte>) {
    es != [] && |es| < 0x1_0000_0000 && AllLoadable(es) && bs == FileBytes(h, es) + rest
  }

  /** Loading a written file gives the same header and tensors, whatever follows it. */
  lemma LoadsWritten(h: Header, es: seq<Entry>, rest: seq<byte>)
    requires es != [] && |es| < 0x1_0000_0000 && AllLoadable(es)
    ensures Load(FileBytes(h, es) + rest, NEW_MODEL) == (Model(h, Insert(map[], es), true), true)
  {
    ParseRoundTrip(h, es, rest);
    InsertSize(es);
  }

  /** Every strict prefix of a written file is rejected. */
  lemma PrefixRejected(h: Header, es: seq<Entry>, cut: nat)
    requires es != [] && |es| < 0x1_0000_0000 && AllLoadable(es) && cut < |FileBytes(h, es)|
    ensures !Load(FileBytes(h, es)[..cut], NEW_MODEL).1
  {
    hide FileBytes, Load, Parse, AllLoadable;
    var file := FileBytes(h, es);
    var bs := file[..cut];
    if Load(bs, NEW_MODEL).1 {
      AcceptsExactly(bs);
      var h', es', rest :| IsFileThen(bs, h', es', rest);
      ConcatAssoc(FileBytes(h', es'), rest, file[cut..]);
      assert file == bs + file[cut..];
      assert file == file + [];
      ParseRoundTrip(h', es', rest + file[cut..]);
      ParseRoundTrip(h, es, []);
    }
  }

  /** The last tensor of a name is found under it: with distinct names, as in a state dictionary, every
      tensor is. */
  lemma {:induction false} InsertLookup(m: map<seq<byte>, Tensor>, es: seq<Entry>, k: nat)
    requires k < |es| && forall j :: k < j < |es| ==> es[j].name != es[k].name
    ensures es[k].name in Insert(m, es) && Insert(m, es)[es[k].name] == es[k].tensor
    decreases |es|
  {
    if k == 0 {
      InsertOthers(m[es[0].name := es[0].tensor], es[1..], es[0].name);
    } else {
      InsertLookup(m[es[0].name := es[0].tensor], es[1..], k - 1);
    }
  }

  lemma {:induction false} InsertOthers(m: map<seq<byte>, Tensor>, es: seq<Entry>, name: seq<byte>)
    requires forall e <- es :: e.name != name
    ensures name in Insert(m, es) <==> name in m
    ensures name in m ==> Insert(m, es)[name] == m[name]
    decreases |es|
  {
    if es != [] {
      assert es[0] in es;
      InsertOthers(m[es[0].name := es[0].tensor], es[1..], name);
    }
  }

  function Product(acc: int, dims: seq<int>): int
    decreases dims
  {
    if dims == [] then acc else Product(acc * dims[0], dims[1..])
  }

  lemma {:induction false} ProductGrows(acc: int, dims: seq<int>)
    requires acc >= 1 && forall d <- dims :: d >= 1
    ensures Product(acc, dims) >= acc
    decreases dims
  {
    if dims != [] {
      assert dims[0] in dims && forall d :: d in dims[1..] ==> d in dims;
      MulAtLeast(acc, dims[0]);
      ProductGrows(acc * dims[0], dims[1..]);
    }
  }

  /** For positive dimensions whose product is within the limit the 64-bit count is that product. */
  lemma {:induction false} CountIsProduct(acc: int, dims: seq<int>)
    requires acc >= 1 && (forall d <- dims :: d >= 1) && Product(acc, dims) <= MAX_COUNT
    ensures Count(acc, dims) == Product(acc, dims)
    decreases dims
  {
    if dims != [] {
      assert dims[0] in dims && forall d :: d in dims[1..] ==> d in dims;
      MulAtLeast(acc, dims[0]);
      ProductGrows(acc * dims[0], dims[1..]);
      CountIsProduct(acc * dims[0], dims[1..]);
    }
  }

  // ----- The exporter's own reader

  /** struct.unpack of n unsigned integers; n of them are there. */
  function UnsignedDims(bs: seq<byte>, n: nat): (dims: seq<int>)
    requires |bs| >= 4 * n
    decreases n
  {
    if n == 0 then [] else [Rd32(bs).0] + UnsignedDims(bs[4..], n - 1)
  }

  /** One record as load_back reads it: without limits, but every read must be complete, and the
      reshape needs as many values as the dimensions multiply to. */
  function ReloadEntry(bs: seq<byte>): Option<(Entry, seq<byte>)> {
    if |bs| < 4 then None
    else
      var (nl, b1) := Rd32(bs);
      if |b1| < nl + 4 then None
      else
        var (nd, b3) := Rd32(b1[nl..]);
        if |b3| < 4 * nd then None
        else
          var dims := UnsignedDims(b3, nd);
          var cnt := Product(1, dims);
          if cnt < 0 || |b3| < 4 * nd + 2 * cnt then None
          else Some((Entry(b1[..nl], Tensor(dims, Halves(b3[4 * nd..4 * nd + 2 * cnt]))), b3[4 * nd + 2 * cnt..]))
  }

  function ReloadEntries(bs: seq<byte>, n: nat): Option<seq<Entry>>
    decreases n
  {
    if n == 0 then Some([])
    else match ReloadEntry(bs)
      case None => None
      case Some((e, rest)) =>
        match ReloadEntries(rest, n - 1)
        case None => None
        case Some(es) => Some([e] + es)
  }

  /** load_back: the header and the records, or None where it raises. */
  function Reload(bs: seq<byte>): Option<(Header, seq<Entry>)> {
    if |bs| < 28 || bs[..8] != MAGIC then None
    else
      var (h, b1) := ReadHeader(bs[8..]);
      var (n, b2) := Rd32(b1);
      match ReloadEntries(b2, n)
      case None => None
      case Some(es) => Some((h, es))
  }

  /** A tensor as the exporter has it: positive dimensions, and one value for each position. */
  predicate Exportable(e: Entry) {
    && 1 <= |e.name| <= 256 && 1 <= |e.tensor.dims| <= 8
    && (forall d <- e.tensor.dims :: 1 <= d < 0x8000_0000)
    && |e.tensor.half| == Product(1, e.tensor.dims) <= MAX_COUNT
  }

  lemma ExportableLoads(e: Entry)
    requires Exportable(e)
    ensures Loadable(e)
  {
    ProductGrows(1, e.tensor.dims);
    CountIsProduct(1, e.tensor.dims);
  }

  lemma {:induction false} UnsignedRoundTrip(dims: seq<int>, rest: seq<byte>)
    requires forall d <- dims :: 1 <= d < 0x8000_0000
    ensures UnsignedDims(DimBytes(dims) + rest, |dims|) == dims
  {
    hide ToLe, FromLe, Rd32, AsInt, DimBytes;
    if dims != [] {
      assert dims[0] in dims && forall d :: d in dims[1..] ==> d in dims;
      DimBytesSplit(dims, rest);
      Rd32OfStore(dims[0], DimBytes(dims[1..]) + rest);
      UnsignedRoundTrip(dims[1..], rest);
      assert [dims[0]] + dims[1..] == dims;
    }
  }

  lemma DimBytesSplit(dims: seq<int>, rest: seq<byte>)
    requires dims != []
    ensures DimBytes(dims) + rest == ToLe(dims[0], 4) + (DimBytes(dims[1..]) + rest)
    ensures (DimBytes(dims) + rest)[4..] == DimBytes(dims[1..]) + rest
  {
    hide ToLe;
    ConcatAssoc(ToLe(dims[0], 4), DimBytes(dims[1..]), rest);
  }

  lemma ReloadEntryRoundTrip(e: Entry, rest: seq<byte>)
    requires Exportable(e)
    ensures ReloadEntry(EntryBytes(e) + rest) == Some((e, rest))
  {
    hide ToLe, FromLe, Rd32, UnsignedDims, DimBytes, HalfBytes, Halves, Product;
    var data := HalfBytes(e.tensor.half) + rest;
    var dims := DimBytes(e.tensor.dims) + data;
    var nd := ToLe(|e.tensor.dims|, 4) + dims;
    EntrySplit(e, rest);
    Rd32OfStore(|e.name|, e.name + nd);
    assert (e.name + nd)[..|e.name|] == e.name && (e.name + nd)[|e.name|..] == nd;
    Rd32OfStore(|e.tensor.dims|, dims);
    UnsignedRoundTrip(e.tensor.dims, data);
    ReloadData(e, rest);
  }

  lemma ReloadData(e: Entry, rest: seq<byte>)
    ensures var n := 4 * |e.tensor.dims|;
      var b := DimBytes(e.tensor.dims) + (HalfBytes(e.tensor.half) + rest);
      && |b| >= n + 2 * |e.tensor.half|
      && Halves(b[n..n + 2 * |e.tensor.half|]) == e.tensor.half && b[n + 2 * |e.tensor.half|..] == rest
  {
    hide DimBytes, HalfBytes, Halves;
    var n, m := 4 * |e.tensor.dims|, 2 * |e.tensor.half|;
    var b := DimBytes(e.tensor.dims) + (HalfBytes(e.tensor.half) + rest);
    assert b[n..n + m] == HalfBytes(e.tensor.half);
    HalvesRoundTrip(e.tensor.half);
  }

  lemma {:induction false} ReloadEntriesRoundTrip(es: seq<Entry>, rest: seq<byte>)
    requires forall e <- es :: Exportable(e)
    ensures ReloadEntries(EntriesBytes(es) + rest, |es|) == Some(es)
  {
    hide EntryBytes, ReloadEntry, Exportable;
    if es != [] {
      assert es[0] in es;
      ConcatAssoc(EntryBytes(es[0]), EntriesBytes(es[1..]), rest);
      ReloadEntryRoundTrip(es[0], EntriesBytes(es[1..]) + rest);
      ReloadEntriesRoundTrip(es[1..], rest);
      assert [es[0]] + es[1..] == es;
    }
  }

  lemma FileSplit(h: Header, es: seq<Entry>)
    ensures var f := FileBytes(h, es);
      |f| >= 28 && f[..8] == MAGIC && f[8..] == HeaderBytes(h) + (ToLe(|es|, 4) + EntriesBytes(es))
  {
    hide ToLe, EntriesBytes;
  }

  lemma ReloadsWritten(h: Header, es: seq<Entry>)
    requires |es| < 0x1_0000_0000 && forall e <- es :: Exportable(e)
    ensures Reload(FileBytes(h, es)) == Some((h, es))
  {
    hide ToLe, Rd32, HeaderBytes, EntriesBytes, ReadHeader, ReloadEntries, FileBytes, Exportable;
    FileSplit(h, es);
    HeaderRoundTrip(h, ToLe(|es|, 4) + EntriesBytes(es));
    Rd32OfStore(|es|, EntriesBytes(es));
    ReloadEntriesRoundTrip(es, []);
    assert EntriesBytes(es) + [] == EntriesBytes(es);
  }

  /** The round trip that the exporter checks: its own reader gets back the header and the tensors, and
      the runtime loads the same ones. */
  lemma BothReadersAgree(h: Header, es: seq<Entry>)
    requires es != [] && |es| < 0x1_0000_0000 && forall e <- es :: Exportable(e)
    ensures Reload(FileBytes(h, es)) == Some((h, es))
    ensures Load(FileBytes(h, es), NEW_MODEL) == (Model(h, Insert(map[], es), true), true)
  {
    hide FileBytes, Load, Reload, Insert, Exportable, Loadable;
    ReloadsWritten(h, es);
    forall e | e in es ensures Loadable(e) {
      ExportableLoads(e);
    }
    LoadsWritten(h, es, []);
    assert FileBytes(h, es) + [] == FileBytes(h, es);
  }

  /** Only the product is checked, so a record with two negative dimensions is accepted. */
  lemma NegativeDimensionsLoad(half: U16)
    ensures Loadable(Entry([0x77], Tensor([-1, -1], [half])))
  {
    assert [-1, -1][1..] == [-1];
    assert Count(1, [-1, -1]) == Count(-1, [-1]);
    assert Count(-1, [-1]) == Count(1, []);
  }

  /** The file as the loader reads it: what is left of it. */
  class FileReader {
    var rest: seq<byte>

    constructor (bs: seq<byte>)
      ensures rest == bs
    {
      rest := bs;
    }

    method ReadU32() returns (v: U32)
      modifies this
      ensures (v, rest) == Rd32(old(rest))
    {
      if |rest| < 4 {
        rest := [];
        return 0;
      }
      StoreOfLoad(rest[..4]);
      RadixValues();
      v := FromLe(rest[..4]);
      rest := rest[4..];
    }

    /** fread of n octets. */
    method ReadBytes(n: nat) returns (r: Option<seq<byte>>)
      modifies this
      ensures r == if |old(rest)| < n then None else Some(old(rest)[..n])
      ensures r.Some? ==> rest == old(rest)[n..]
    {
      if |rest| < n {
        rest := [];
        return None;
      }
      r := Some(rest[..n]);
      rest := rest[n..];
    }

    /** The dimensions of a record and the count multiplied up on the way. */
    method ReadTensorDims(nd: nat) returns (dims: seq<int>, cnt: int)
      modifies this
      ensures (dims, rest) == ReadDims(old(rest), nd) && cnt == Count(1, dims)
    {
      hide Rd32, Wrap64;
      ghost var all := ReadDims(rest, nd);
      dims, cnt := [], 1;
      assert [] + all.0 == all.0;
      assert forall ds: seq<int> :: [] + ds == ds;
      var j := 0;
      while j < nd
        invariant 0 <= j <= nd
        invariant all == (dims + ReadDims(rest, nd - j).0, ReadDims(rest, nd - j).1)
        invariant forall ds :: Count(1, dims + ds) == Count(cnt, ds)
      {
        ghost var before := rest;
        var d := ReadU32();
        ghost var tail := ReadDims(rest, nd - j - 1).0;
        assert dims + ([AsInt(d)] + tail) == (dims + [AsInt(d)]) + tail;
        CountSnoc(dims, AsInt(d), cnt);
        dims := dims + [AsInt(d)];
        cnt := Wrap64(cnt * AsInt(d));
        j := j + 1;
      }
      assert dims + [] == dims;
    }

    /** One record of the loader's loop. */
    method ReadTensor() returns (r: Option<Entry>)
      modifies this
      ensures r.None? <==> ReadEntry(old(rest)).None?
      ensures r.Some? ==> ReadEntry(old(rest)) == Some((r.value, rest))
    {
      hide Rd32, ReadDims, Count, Halves;
      var nl := ReadU32();
      if nl == 0 || nl > 256 { return None; }
      var name := ReadBytes(nl);
      if name.None? { return None; }
      var nd := ReadU32();
      if nd == 0 || nd > 8 { return None; }
      var dims, cnt := ReadTensorDims(nd);
      if cnt <= 0 || cnt > MAX_COUNT { return None; }
      var data := ReadBytes(2 * cnt);
      if data.None? { return None; }
      return Some(Entry(name.value, Tensor(dims, Halves(data.value))));
    }
  }

  lemma CountSnoc(dims: seq<int>, d: int, cnt: int)
    requires forall ds :: Count(1, dims + ds) == Count(cnt, ds)
    ensures forall ds :: Count(1, (dims + [d]) + ds) == Count(Wrap64(cnt * d), ds)
  {
    forall ds ensures Count(1, (dims + [d]) + ds) == Count(Wrap64(cnt * d), ds) {
      assert (dims + [d]) + ds == dims + ([d] + ds);
      assert ([d] + ds)[1..] == ds;
    }
  }

  /** The runtime's model object. */
  class CnnModel {
    var header: Header
    var tensors: map<seq<byte>, Tensor>
    var valid: bool

    constructor ()
      ensures View() == NEW_MODEL
    {
      header, tensors, valid := Header(0, 0, 0, 0), map[], false;
    }

    function View(): Model
      reads this
    {
      Model(header, tensors, valid)
    }

    /** loadCnnModel; `file` is absent when it cannot be opened. */
    method LoadCnnModel(file: Option<seq<byte>>) returns (ok: bool)
      modifies this
      ensures file.None? ==> !ok && View() == old(View())
      ensures file.Some? ==> (View(), ok) == Load(file.value, old(View()))
    {
      hide Rd32, ReadEntry;
      if file.None? { return false; }
      if |file.value| < 8 || file.value[..8] != MAGIC { return false; }
      var f := new FileReader(file.value[8..]);
      var version := f.ReadU32();
      var base := f.ReadU32();
      var cin := f.ReadU32();
      var mode := f.ReadU32();
      header := Header(version, base, cin, mode);
      var nt := f.ReadU32();
      ok := LoadTensors(f, nt);
      if !ok { return false; }
      valid := |tensors| > 0;
      return valid;
    }

    method LoadTensors(f: FileReader, nt: nat) returns (ok: bool)
      modifies this`tensors, f
      ensures tensors == Insert(old(tensors), ReadEntries(old(f.rest), nt).entries)
      ensures ok == ReadEntries(old(f.rest), nt).ok
    {
      hide ReadEntry;
      ghost var all := ReadEntries(f.rest, nt);
      var i := 0;
      while i < nt
        invariant 0 <= i <= nt
        invariant Insert(old(tensors), all.entries) == Insert(tensors, ReadEntries(f.rest, nt - i).entries)
        invariant all.ok == ReadEntries(f.rest, nt - i).ok
      {
        ghost var p := ReadEntries(f.rest, nt - i);
        var e := f.ReadTensor();
        if e.None? { return false; }
        assert p.entries[1..] == ReadEntries(f.rest, nt - i - 1).entries;
        tensors := tensors[e.value.name := e.value.tensor];
        i := i + 1;
      }
      return true;
    }
  }

  /** The file the exporter writes to. */
  class FileWriter {
    var bytes: seq<byte>

    constructor ()
      ensures bytes == []
    {
      bytes := [];
    }

    method WriteU32(v: int)
      modifies this
      ensures bytes == old(bytes) + ToLe(v, 4)
    {
      bytes := bytes + ToLe(v, 4);
    }

    method WriteTensor(e: Entry)
      modifies this
      ensures bytes == old(bytes) + EntryBytes(e)
    {
      hide ToLe, HalfBytes;
      WriteU32(|e.name|);
      bytes := bytes + e.name;
      WriteU32(|e.tensor.dims|);
      ghost var front := bytes;
      var j := 0;
      while j < |e.tensor.dims|
        invariant 0 <= j <= |e.tensor.dims|
        invariant front + DimBytes(e.tensor.dims) == bytes + DimBytes(e.tensor.dims[j..])
      {
        ConcatAssoc(bytes, ToLe(e.tensor.dims[j], 4), DimBytes(e.tensor.dims[j + 1..]));
        assert e.tensor.dims[j..][1..] == e.tensor.dims[j + 1..];
        WriteU32(e.tensor.dims[j]);
        j := j + 1;
      }
      assert bytes + [] == bytes;
      bytes := bytes + HalfBytes(e.tensor.half);
      EntrySplit(e, []);
    }

    /** export: header, record count and records, in dictionary order. */
    method Export(h: Header, sd: seq<Entry>)
      modifies this
      ensures bytes == old(bytes) + FileBytes(h, sd)
    {
      hide ToLe, EntryBytes;
      bytes := bytes + MAGIC;
      WriteU32(h.version);
      WriteU32(h.base);
      WriteU32(h.cin);
      WriteU32(h.mode);
      WriteU32(|sd|);
      ghost var front := bytes;
      var k := 0;
      while k < |sd|
        invariant 0 <= k <= |sd|
        invariant front + EntriesBytes(sd) == bytes + EntriesBytes(sd[k..])
      {
        ConcatAssoc(bytes, EntryBytes(sd[k]), EntriesBytes(sd[k + 1..]));
        assert sd[k..][1..] == sd[k + 1..];
        WriteTensor(sd[k]);
        k := k + 1;
      }
      assert bytes + [] == bytes;
    }
  }
}
