/** Octets and little-endian integers, as the code emitter, the weight file and the
    relocation walk all read and write them. */
module Bytes {

  datatype Option<+T> = None | Some(value: T)

  type byte = x: int | 0 <= x < 256

  type U32 = x: int | 0 <= x < 0x1_0000_0000

  const WORDS: int := 0x1_0000_0000_0000_0000

  /** A C cast from uint32_t to int. */
  function AsInt(x: U32): int {
    if x < 0x8000_0000 then x else x - 0x1_0000_0000
  }

  /** 256 to the power n: the number of values n octets can hold. */
  function Radix(n: nat): (r: int)
    ensures r > 0
  {
    if n == 0 then 1 else 256 * Radix(n - 1)
  }

  /** The n low-order octets of v, least significant first (a C cast to an n-octet type
      followed by a little-endian store, so bits above 8n are dropped). */
  function ToLe(v: int, n: nat): (bs: seq<byte>)
    ensures |bs| == n
    decreases n
  {
    if n == 0 then [] else [v % 256] + ToLe(v / 256, n - 1)
  }

  /** The unsigned value of a little-endian octet string. */
  function FromLe(bs: seq<byte>): (v: int)
    ensures v >= 0
  {
    if bs == [] then 0 else bs[0] + 256 * FromLe(bs[1..])
  }

  /** Loading back what was stored gives the value modulo the width. */
  lemma {:induction false} LoadOfStore(v: int, n: nat)
    ensures FromLe(ToLe(v, n)) == v % Radix(n)
    decreases n
  {
    if n > 0 {
      LoadOfStore(v / 256, n - 1);
      assert ToLe(v, n)[1..] == ToLe(v / 256, n - 1);
      ModSplit(v, Radix(n - 1));
    }
  }

  /** Storing back what was loaded gives the same octets. */
  lemma {:induction false} StoreOfLoad(bs: seq<byte>)
    ensures FromLe(bs) < Radix(|bs|)
    ensures ToLe(FromLe(bs), |bs|) == bs
  {
    if bs != [] {
      StoreOfLoad(bs[1..]);
      assert FromLe(bs) / 256 == FromLe(bs[1..]);
      assert FromLe(bs) % 256 == bs[0];
    }
  }

  lemma ModSplit(v: int, m: int)
    requires m > 0
    ensures v % (256 * m) == v % 256 + 256 * ((v / 256) % m)
  {
    var q := v / 256 / m;
    var r := (v / 256) % m;
    assert v / 256 == m * q + r;
    assert v == (256 * m) * q + (v % 256 + 256 * r) by {
      assert 256 * (m * q) == (256 * m) * q;
    }
    assert 0 <= v % 256 + 256 * r < 256 * m;
    UniqueRemainder(v, 256 * m, q, v % 256 + 256 * r);
  }

  lemma UniqueRemainder(v: int, m: int, q: int, r: int)
    requires m > 0 && 0 <= r < m && v == m * q + r
    ensures v % m == r && v / m == q
  {
    var d := v / m - q;
    assert m * d == r - v % m;
    if d >= 1 {
      MulAtLeast(m, d);
    } else if d <= -1 {
      MulAtLeast(m, -d);
    }
  }

  lemma MulAtLeast(m: int, d: int)
    requires m > 0 && d >= 1
    ensures m * d >= m
  {
  }

  lemma RadixValues()
    ensures Radix(1) == 0x100 && Radix(2) == 0x1_0000 && Radix(4) == 0x1_0000_0000
    ensures Radix(8) == 0x1_0000_0000_0000_0000
  {
    assert Radix(3) == 0x100_0000;
    assert Radix(4) == 0x1_0000_0000;
    assert Radix(5) == 0x100_0000_0000;
    assert Radix(6) == 0x1_0000_0000_0000;
    assert Radix(7) == 0x100_0000_0000_0000;
  }

  lemma ConcatAssoc<T>(a: seq<T>, b: seq<T>, c: seq<T>)
    ensures (a + b) + c == a + (b + c)
  {
  }
}
