/** Small facts about integer multiplication, division and remainder used by the
    cursor invariants of the assembly and layout loops (row-major and
    column-major offsets such as j*M + i). */
module Arith {

  /** Multiplication by a positive factor is monotone. */
  lemma MulMonotone(a: int, b: int, c: int)
    requires 0 <= c && a <= b
    ensures a * c <= b * c
  {
    var d := b - a;
    assert b * c == a * c + d * c;
  }

  /** The offset q = j*m + i with 0 <= i < m decomposes uniquely into
      quotient j and remainder i. */
  lemma DivModOfOffset(q: int, m: int, j: int, i: int)
    requires 0 < m && 0 <= i < m && 0 <= j && q == j * m + i
    ensures q / m == j && q % m == i
  {
    var d, r := q / m, q % m;
    assert q == d * m + r && 0 <= r < m;
    if d > j {
      MulMonotone(1, d - j, m);
    } else if d < j {
      MulMonotone(1, j - d, m);
    }
  }

  /** Consecutive blocks of length m: block j+1 starts where block j ends. */
  lemma NextBlock(j: int, m: int)
    ensures (j + 1) * m == j * m + m
  {
  }

  /** A block that starts before the last one ends within the total. */
  lemma BlockFits(j: int, n: int, m: int)
    requires 0 <= j < n && 0 <= m
    ensures j * m + m <= n * m
  {
    MulMonotone(j + 1, n, m);
  }
}
