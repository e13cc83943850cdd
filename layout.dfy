/** The buffers handed to the linear-algebra routines: column-major copies
    of the design and constraint matrices, the buffer used for the rank
    check, the sums of squares reported after a fit and the copies of the
    solution vector. */
module Layout {
  import opened Arith

  /** A dense matrix as a sequence of rows. */
  predicate IsMatrix(m: seq<seq<real>>, rows: nat, cols: nat) {
    |m| == rows && forall i :: 0 <= i < rows ==> |m[i]| == cols
  }

  /** m holds the first rows x cols entries of the array a. */
  predicate Holds(m: seq<seq<real>>, a: array2<real>, rows: nat, cols: nat)
    reads a
  {
    && IsMatrix(m, rows, cols) && rows <= a.Length0 && cols <= a.Length1
    && forall i, j :: 0 <= i < rows && 0 <= j < cols ==> m[i][j] == a[i, j]
  }

  /** The first rows x cols entries of a two-dimensional array. */
  function Rows(a: array2<real>, rows: nat, cols: nat): (m: seq<seq<real>>)
    requires rows <= a.Length0 && cols <= a.Length1
    reads a
    ensures Holds(m, a, rows, cols)
  {
    seq(rows, i requires 0 <= i < rows reads a => seq(cols, j requires 0 <= j < cols reads a => a[i, j]))
  }

  /** Entry (i, j) of m, or 0 outside it. */
  function At(m: seq<seq<real>>, i: int, j: int): real {
    if 0 <= i < |m| && 0 <= j < |m[i]| then m[i][j] else 0.0
  }

  /** The value a column-major buffer of a matrix with the given row count
      holds at position k: entry (k % rows, k / rows). */
  function ColumnEntry(m: seq<seq<real>>, rows: nat, k: nat): real {
    if rows == 0 then 0.0 else At(m, k % rows, k / rows)
  }

  /** Column-major storage of a rows x cols matrix: entry (i, j) sits at
      position j * rows + i. */
  function ColumnMajorSeq(m: seq<seq<real>>, rows: nat, cols: nat): (r: seq<real>)
    ensures |r| == rows * cols
  {
    seq(rows * cols, k requires 0 <= k < rows * cols => ColumnEntry(m, rows, k))
  }

  /** Entry (i, j) of the matrix is at position j * rows + i, and that
      position lies inside the buffer. */
  lemma ColumnMajorAt(m: seq<seq<real>>, rows: nat, cols: nat, i: nat, j: nat)
    requires IsMatrix(m, rows, cols) && i < rows && j < cols
    ensures j * rows + i < rows * cols
    ensures ColumnMajorSeq(m, rows, cols)[j * rows + i] == m[i][j]
  {
    BlockFits(j, cols, rows);
    DivModOfOffset(j * rows + i, rows, j, i);
  }

  /** Column-major storage keeps every entry: two matrices with the same
      buffer are equal. */
  lemma ColumnMajorInjective(m: seq<seq<real>>, m': seq<seq<real>>, rows: nat, cols: nat)
    requires IsMatrix(m, rows, cols) && IsMatrix(m', rows, cols)
    requires ColumnMajorSeq(m, rows, cols) == ColumnMajorSeq(m', rows, cols)
    ensures m == m'
  {
    forall i | 0 <= i < rows
      ensures m[i] == m'[i]
    {
      forall j | 0 <= j < cols
        ensures m[i][j] == m'[i][j]
      {
        ColumnMajorAt(m, rows, cols, i, j);
        ColumnMajorAt(m', rows, cols, i, j);
      }
    }
  }

  /** Writes the rows x cols matrix held in mat, column-major, into buf
      from position off on, and leaves the rest of buf alone. */
  method CopyBlock(mat: array2<real>, rows: nat, cols: nat, buf: array<real>, off: nat, ghost m: seq<seq<real>>)
    requires Holds(m, mat, rows, cols) && off + rows * cols <= buf.Length
    modifies buf
    ensures forall k' :: off <= k' < off + rows * cols ==> buf[k'] == ColumnEntry(m, rows, k' - off)
    ensures forall k' :: 0 <= k' < off || off + rows * cols <= k' < buf.Length ==> buf[k'] == old(buf[k'])
  {
    var j := 0;
    while j < cols
      invariant 0 <= j <= cols
      invariant forall k' :: off <= k' < off + j * rows ==> buf[k'] == ColumnEntry(m, rows, k' - off)
      invariant forall k' :: 0 <= k' < off || off + j * rows <= k' < buf.Length ==> buf[k'] == old(buf[k'])
    {
      BlockFits(j, cols, rows);
      NextBlock(j, rows);
      CopyColumn(mat, rows, cols, j, buf, off, off + j * rows, m);
      j := j + 1;
    }
  }

  /** Writes column j of the matrix at positions start .. start + rows of
      buf, with start == off + j * rows. */
  method CopyColumn(mat: array2<real>, rows: nat, cols: nat, j: nat, buf: array<real>, off: nat, start: nat,
                    ghost m: seq<seq<real>>)
    requires Holds(m, mat, rows, cols) && j < cols
    requires start == off + j * rows && start + rows <= buf.Length
    modifies buf
    ensures forall k' :: start <= k' < start + rows ==> buf[k'] == ColumnEntry(m, rows, k' - off)
    ensures forall k' :: 0 <= k' < start || start + rows <= k' < buf.Length ==> buf[k'] == old(buf[k'])
  {
    var i := 0;
    while i < rows
      invariant 0 <= i <= rows
      invariant forall k' :: start <= k' < start + i ==> buf[k'] == ColumnEntry(m, rows, k' - off)
      invariant forall k' :: 0 <= k' < start || start + i <= k' < buf.Length ==> buf[k'] == old(buf[k'])
    {
      DivModOfOffset(start + i - off, rows, j, i);
      buf[start + i] := mat[i, j];
      i := i + 1;
    }
  }

  /** Copies the matrix held in the first rows rows of mat into a fresh
      buffer, column after column. */
  method ColumnMajor(mat: array2<real>, rows: nat, ghost m: seq<seq<real>>) returns (out: array<real>)
    requires Holds(m, mat, rows, mat.Length1)
    ensures out[..] == ColumnMajorSeq(m, rows, mat.Length1)
  {
    out := new real[rows * mat.Length1];
    CopyBlock(mat, rows, mat.Length1, out, 0, m);
  }

  /** The rank-check buffer as the source fills it: all of A column-major,
      then all of C column-major, each with its own row count. */
  function RankBuffer(a: seq<seq<real>>, c: seq<seq<real>>, m: nat, p: nat, n: nat): (r: seq<real>)
    ensures |r| == (m + p) * n
  {
    ColumnMajorSeq(a, m, n) + ColumnMajorSeq(c, p, n)
  }

  /** Entry (i, j) of A sits at j * m + i of the rank-check buffer, as
      in A's own column-major copy. */
  lemma RankBufferHoldsA(a: seq<seq<real>>, c: seq<seq<real>>, m: nat, p: nat, n: nat, i: nat, j: nat)
    requires IsMatrix(a, m, n) && i < m && j < n
    ensures j * m + i < (m + p) * n
    ensures RankBuffer(a, c, m, p, n)[j * m + i] == a[i][j]
  {
    ColumnMajorAt(a, m, n, i, j);
  }

  /** Entry (i, j) of C sits at m * n + j * p + i of the rank-check
      buffer: after all of A, with C's own row count p as the stride. */
  lemma RankBufferHoldsC(a: seq<seq<real>>, c: seq<seq<real>>, m: nat, p: nat, n: nat, i: nat, j: nat)
    requires IsMatrix(c, p, n) && i < p && j < n
    ensures m * n + j * p + i < (m + p) * n
    ensures RankBuffer(a, c, m, p, n)[m * n + j * p + i] == c[i][j]
  {
    ColumnMajorAt(c, p, n, i, j);
    assert (m + p) * n == m * n + p * n;
  }

  /** Fills the rank-check buffer, as written: A's columns, then C's. */
  method StackForRank(amat: array2<real>, cmat: array2<real>, m: nat, p: nat,
                      ghost a: seq<seq<real>>, ghost c: seq<seq<real>>) returns (buf: array<real>)
    requires Holds(a, amat, m, amat.Length1) && Holds(c, cmat, p, amat.Length1)
    ensures buf[..] == RankBuffer(a, c, m, p, amat.Length1)
  {
    var n := amat.Length1;
    buf := new real[(m + p) * n];
    assert (m + p) * n == m * n + p * n;
    CopyBlock(amat, m, n, buf, 0, a);
    CopyBlock(cmat, p, n, buf, m * n, c);
  }

  /** Writes column j of the stacked matrix [A; C] at positions
      base .. base + m + p of buf, with base == j * (m + p). */
  method CopyStackedColumn(amat: array2<real>, cmat: array2<real>, m: nat, p: nat, j: nat,
                           buf: array<real>, base: nat, ghost s: seq<seq<real>>)
    requires |s| == m + p && j < amat.Length1
    requires Holds(s[..m], amat, m, amat.Length1) && Holds(s[m..], cmat, p, amat.Length1)
    requires base == j * (m + p) && base + m + p <= buf.Length
    requires forall k' :: 0 <= k' < base ==> buf[k'] == ColumnEntry(s, m + p, k')
    modifies buf
    ensures forall k' :: 0 <= k' < base + m + p ==> buf[k'] == ColumnEntry(s, m + p, k')
  {
    var k := base;
    var i := 0;
    while i < m
      invariant 0 <= i <= m && k == base + i
      invariant forall k' :: 0 <= k' < k ==> buf[k'] == ColumnEntry(s, m + p, k')
    {
      DivModOfOffset(k, m + p, j, i);
      buf[k] := amat[i, j];
      k := k + 1;
      i := i + 1;
    }
    i := 0;
    while i < p
      invariant 0 <= i <= p && k == base + m + i
      invariant forall k' :: 0 <= k' < k ==> buf[k'] == ColumnEntry(s, m + p, k')
    {
      DivModOfOffset(k, m + p, j, m + i);
      buf[k] := cmat[i, j];
      k := k + 1;
      i := i + 1;
    }
  }

  /** The stacked matrix [A; C] in column-major form, which is what a
      routine given the buffer as an (m + p) x n matrix reads. */
  method StackColumnMajor(amat: array2<real>, cmat: array2<real>, m: nat, p: nat,
                          ghost a: seq<seq<real>>, ghost c: seq<seq<real>>) returns (buf: array<real>)
    requires Holds(a, amat, m, amat.Length1) && Holds(c, cmat, p, amat.Length1)
    ensures buf[..] == ColumnMajorSeq(a + c, m + p, amat.Length1)
  {
    var n := amat.Length1;
    ghost var s := a + c;
    assert s[..m] == a && s[m..] == c;
    buf := new real[(m + p) * n];
    var j := 0;
    while j < n
      invariant 0 <= j <= n
      invariant forall k' :: 0 <= k' < j * (m + p) ==> buf[k'] == ColumnEntry(s, m + p, k')
    {
      BlockFits(j, n, m + p);
      NextBlock(j, m + p);
      CopyStackedColumn(amat, cmat, m, p, j, buf, j * (m + p), s);
      j := j + 1;
    }
  }

  /** The rank-check buffer is the column-major form of [A; C] when there
      is a single column, or when A or C has no rows. */
  lemma RankBufferAgrees(a: seq<seq<real>>, c: seq<seq<real>>, m: nat, p: nat, n: nat)
    requires IsMatrix(a, m, n) && IsMatrix(c, p, n)
    requires n <= 1 || m == 0 || p == 0
    ensures RankBuffer(a, c, m, p, n) == ColumnMajorSeq(a + c, m + p, n)
  {
    if n == 0 {
    } else if p == 0 {
      assert a + c == a;
    } else if m == 0 {
      assert a + c == c;
    } else {
      SingleColumnAgrees(a, c, m, p);
    }
  }

  /** With a single column, A's entries followed by C's are the column of
      [A; C]. */
  lemma SingleColumnAgrees(a: seq<seq<real>>, c: seq<seq<real>>, m: nat, p: nat)
    requires IsMatrix(a, m, 1) && IsMatrix(c, p, 1)
    ensures RankBuffer(a, c, m, p, 1) == ColumnMajorSeq(a + c, m + p, 1)
  {
    var buf, s := RankBuffer(a, c, m, p, 1), a + c;
    forall k | 0 <= k < m + p
      ensures buf[k] == ColumnEntry(s, m + p, k)
    {
      DivModOfOffset(k, m + p, 0, k);
      if k < m {
        DivModOfOffset(k, m, 0, k);
        assert buf[k] == ColumnEntry(a, m, k);
      } else {
        DivModOfOffset(k - m, p, 0, k - m);
        assert buf[k] == ColumnEntry(c, p, k - m);
      }
    }
  }

  /** The determinant of the 2 x 2 submatrix on rows r0, r1 and columns 0, 1. */
  function Minor2(m: seq<seq<real>>, r0: nat, r1: nat): real
    requires r0 < |m| && r1 < |m| && |m[r0]| >= 2 && |m[r1]| >= 2
  {
    m[r0][0] * m[r1][1] - m[r0][1] * m[r1][0]
  }

  /** The rows x cols matrix a routine reads from a column-major buffer. */
  function ReadColumnMajor(buf: seq<real>, rows: nat, cols: nat): (m: seq<seq<real>>)
    requires |buf| == rows * cols
    ensures IsMatrix(m, rows, cols)
  {
    seq(rows, i requires 0 <= i < rows => seq(cols, j requires 0 <= j < cols =>
      BlockFits(j, cols, rows); buf[j * rows + i]))
  }

  /** Reading a column-major buffer back gives the matrix it was made from. */
  lemma ReadColumnMajorInverse(m: seq<seq<real>>, rows: nat, cols: nat)
    requires IsMatrix(m, rows, cols)
    ensures ReadColumnMajor(ColumnMajorSeq(m, rows, cols), rows, cols) == m
  {
    var back := ReadColumnMajor(ColumnMajorSeq(m, rows, cols), rows, cols);
    forall i | 0 <= i < rows
      ensures back[i] == m[i]
    {
      forall j | 0 <= j < cols
        ensures back[i][j] == m[i][j]
      {
        ColumnMajorAt(m, rows, cols, i, j);
      }
    }
  }

  /** With A = [[1, 1], [0, 0]] and C = [[1, 1]], [A; C] has rank 1 (every
      2 x 2 minor vanishes, an entry does not), but the 3 x 2 matrix read from
      the rank-check buffer has a non-zero 2 x 2 minor, so rank 2. */
  lemma RankBufferCounterexample()
    ensures var a := [[1.0, 1.0], [0.0, 0.0]];
            var c := [[1.0, 1.0]];
            var stacked := a + c;
            var read := ReadColumnMajor(RankBuffer(a, c, 2, 1, 2), 3, 2);
            && stacked[0][0] != 0.0
            && Minor2(stacked, 0, 1) == 0.0 && Minor2(stacked, 0, 2) == 0.0 && Minor2(stacked, 1, 2) == 0.0
            && Minor2(read, 0, 1) != 0.0
  {
    var a := [[1.0, 1.0], [0.0, 0.0]];
    var c := [[1.0, 1.0]];
    var buf := RankBuffer(a, c, 2, 1, 2);
    assert ColumnMajorSeq(a, 2, 2) == [1.0, 0.0, 1.0, 0.0] by {
      DivModOfOffset(1, 2, 0, 1);
      DivModOfOffset(2, 2, 1, 0);
      DivModOfOffset(3, 2, 1, 1);
    }
    assert ColumnMajorSeq(c, 1, 2) == [1.0, 1.0] by {
      DivModOfOffset(1, 1, 1, 0);
    }
    assert buf == [1.0, 0.0, 1.0, 0.0, 1.0, 1.0];
    var read := ReadColumnMajor(buf, 3, 2);
    assert read[0][0] == 1.0 && read[0][1] == 0.0 && read[1][0] == 0.0 && read[1][1] == 1.0;
  }

  /** Sum of the squares of the entries. */
  function SumSquares(s: seq<real>): (r: real)
    ensures r >= 0.0
  {
    if s == [] then 0.0 else SumSquares(s[..|s| - 1]) + s[|s| - 1] * s[|s| - 1]
  }

  lemma {:induction false} SumSquaresAppend(s: seq<real>, t: seq<real>)
    ensures SumSquares(s + t) == SumSquares(s) + SumSquares(t)
  {
    if t != [] {
      var n := |t| - 1;
      assert (s + t)[..|s + t| - 1] == s + t[..n];
      SumSquaresAppend(s, t[..n]);
    } else {
      assert s + t == s;
    }
  }

  /** The residual sum over rows lo .. hi never exceeds the total sum of
      squares over rows 0 .. hi. */
  lemma ResidualAtMostTotal(s: seq<real>, lo: nat, hi: nat)
    requires lo <= hi <= |s|
    ensures SumSquares(s[lo..hi]) <= SumSquares(s[..hi])
  {
    assert s[..hi] == s[..lo] + s[lo..hi];
    SumSquaresAppend(s[..lo], s[lo..hi]);
  }

  /** Sum of the squares of a[lo .. hi). */
  method SquareSum(a: array<real>, lo: nat, hi: nat) returns (r: real)
    requires lo <= hi <= a.Length
    ensures r == SumSquares(a[lo..hi])
  {
    r := 0.0;
    var i := lo;
    while i < hi
      invariant lo <= i <= hi && r == SumSquares(a[lo..i])
    {
      assert a[lo..i + 1][..i - lo] == a[lo..i];
      r := r + a[i] * a[i];
      i := i + 1;
    }
  }

  /** Count of the entries strictly above the threshold. */
  function CountAbove(s: seq<real>, eps: real): (r: nat)
    ensures r <= |s|
  {
    if s == [] then 0 else CountAbove(s[..|s| - 1], eps) + (if s[|s| - 1] > eps then 1 else 0)
  }

  /** Threshold under which a singular value counts as zero. */
  const Eps12: real := 0.000000000001

  /** The numerical rank from the singular values of a matrix with nmin =
      min(rows, cols) of them: how many exceed Eps12. */
  method RankFromSingularValues(s: array<real>, nmin: nat) returns (rank: nat)
    requires nmin <= s.Length
    ensures rank == CountAbove(s[..nmin], Eps12) && rank <= nmin
  {
    rank := 0;
    var i := 0;
    while i < nmin
      invariant 0 <= i <= nmin && rank == CountAbove(s[..i], Eps12)
    {
      assert s[..i + 1][..i] == s[..i];
      if s[i] > Eps12 {
        rank := rank + 1;
      }
      i := i + 1;
    }
  }

  /** A copy of the first n entries. */
  method CopyPrefix(src: array<real>, n: nat) returns (dst: array<real>)
    requires n <= src.Length
    ensures dst.Length == n && dst[..] == src[..n]
  {
    dst := new real[n];
    var i := 0;
    while i < n
      invariant 0 <= i <= n && dst[..i] == src[..i]
    {
      dst[i] := src[i];
      i := i + 1;
    }
  }
}
