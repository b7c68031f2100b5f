/** Row-major indices and clamped coordinates, shared by the image operations. */
module Grid {

  function Clamp(v: int, n: nat): (r: nat)
    requires n >= 1
    ensures r < n
  {
    if v < 0 then 0 else if v > n - 1 then n - 1 else v
  }

  lemma Times(a: nat, b: nat, m: nat)
    requires a <= b
    ensures a * m <= b * m
  {
  }

  /** Column r of row q lies among the n rows of m. */
  lemma RowMajor(q: nat, r: nat, n: nat, m: nat)
    requires q < n && r < m
    ensures q * m + r < n * m
  {
    assert q * m + m == (q + 1) * m;
    Times(q + 1, n, m);
  }
}
