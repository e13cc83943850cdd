/** The equality-constraint system C x = d of the constrained fit.

    For every order o the translational-invariance constraints have been
    reduced (by a rank-revealing factorisation that is not part of this
    model) to |reduced[o]| independent vectors of length nparam[o], the
    number of parameters of that order. Each such vector becomes one row
    of C, placed in the column block of its order. When the harmonic
    parameters are fixed to reference values, the order-0 vectors are
    replaced by one unit row per harmonic parameter whose right-hand side
    is the reference value. */
module ConstraintMatrix {
  import opened Combinatorics
  import opened FcTerms

  /** What the harmonic reference file yields: it cannot be opened, it has
      no marker line, or after the marker it announces count values and
      lists them. */
  datatype ReferenceFile = CannotOpen | WithoutMarker | WithMarker(count: int, values: seq<real>)

  datatype ConstraintError = ReferenceUnreadable | ReferenceCountMismatch | ReferenceMarkerMissing

  /** The outcome of building the constraint system: the number P of rows
      written, or the reason the run stops. */
  datatype Outcome = Built(rows: nat) | Rejected(reason: ConstraintError)

  /** The number of parameters of each order: the number of its groups. */
  function GroupCounts(ndup: seq<seq<nat>>): (r: seq<nat>)
    ensures |r| == |ndup| && forall o :: 0 <= o < |ndup| ==> r[o] == |ndup[o]|
  {
    seq(|ndup|, o requires 0 <= o < |ndup| => |ndup[o]|)
  }

  /** The total parameter count is the sum of the per-order counts. */
  lemma {:induction false} NumParamsIsSum(ndup: seq<seq<nat>>)
    ensures NumParams(ndup) == Sum(GroupCounts(ndup))
  {
    if ndup != [] {
      var n := |ndup|;
      assert GroupCounts(ndup)[..n - 1] == GroupCounts(ndup[..n - 1]);
      NumParamsIsSum(ndup[..n - 1]);
    }
  }

  /** The number of rows of each order: its reduced vectors. */
  function Ranks(reduced: seq<seq<seq<real>>>): (r: seq<nat>)
    ensures |r| == |reduced| && forall o :: 0 <= o < |reduced| ==> r[o] == |reduced[o]|
  {
    seq(|reduced|, o requires 0 <= o < |reduced| => |reduced[o]|)
  }

  lemma SumSliceStep(s: seq<nat>, lo: nat, hi: nat)
    requires lo < hi <= |s|
    ensures Sum(s[lo..hi]) == Sum(s[lo..hi - 1]) + s[hi - 1]
  {
    assert s[lo..hi][..hi - lo - 1] == s[lo..hi - 1];
  }

  lemma {:induction false} SumSliceMonotone(s: seq<nat>, lo: nat, mid: nat, hi: nat)
    requires lo <= mid <= hi <= |s|
    ensures Sum(s[lo..mid]) <= Sum(s[lo..hi])
  {
    if mid < hi {
      SumSliceStep(s, lo, hi);
      SumSliceMonotone(s, lo, mid, hi - 1);
    }
  }

  lemma {:induction false} SumFirst(s: seq<nat>)
    requires |s| >= 1
    ensures Sum(s) == s[0] + Sum(s[1..])
  {
    if |s| > 1 {
      var n := |s|;
      assert s[..n - 1][1..] == s[1..][..n - 2];
      SumFirst(s[..n - 1]);
    } else {
      assert s[1..] == [];
    }
  }

  lemma {:induction false} SumMonotone(a: seq<nat>, b: seq<nat>)
    requires |a| == |b| && forall o :: 0 <= o < |a| ==> a[o] <= b[o]
    ensures Sum(a) <= Sum(b)
  {
    if a != [] {
      var n := |a|;
      SumMonotone(a[..n - 1], b[..n - 1]);
    }
  }

  /** The number of constraint rows given a count per order: the sum of
      the counts, except that with the harmonic block fixed the order-0
      count is replaced by the number of harmonic parameters. */
  function RowTotal(counts: seq<nat>, nparam: seq<nat>, fixHarmonic: bool): nat
    requires |counts| == |nparam| && (fixHarmonic ==> |nparam| >= 1)
  {
    if fixHarmonic then nparam[0] + Sum(counts[1..]) else Sum(counts)
  }

  /** Sums the counts of all orders, then swaps the order-0 count for the
      number of harmonic parameters when those are fixed. Used both for the
      allocated row count Pmax (counts = candidate constraints per order)
      and for the row count P (counts = ranks per order). */
  method CountRows(counts: seq<nat>, nparam: seq<nat>, fixHarmonic: bool) returns (total: int)
    requires |counts| == |nparam| && (fixHarmonic ==> |nparam| >= 1)
    ensures total == RowTotal(counts, nparam, fixHarmonic)
    ensures fixHarmonic ==> total == Sum(counts) - counts[0] + nparam[0]
  {
    total := 0;
    var o := 0;
    while o < |counts|
      invariant 0 <= o <= |counts| && total == Sum(counts[..o])
    {
      SumStep(counts, o);
      total := total + counts[o];
      o := o + 1;
    }
    assert counts[..o] == counts;
    if fixHarmonic {
      SumFirst(counts);
      total := total - counts[0] + nparam[0];
    }
  }

  /** If no order has more independent constraints than candidates, the
      rows written fit in the rows allocated: P <= Pmax. */
  lemma RowsWithinAllocation(ranks: seq<nat>, candidates: seq<nat>, nparam: seq<nat>, fixHarmonic: bool)
    requires |ranks| == |candidates| == |nparam| && (fixHarmonic ==> |nparam| >= 1)
    requires forall o :: 0 <= o < |ranks| ==> ranks[o] <= candidates[o]
    ensures RowTotal(ranks, nparam, fixHarmonic) <= RowTotal(candidates, nparam, fixHarmonic)
  {
    if fixHarmonic {
      SumMonotone(ranks[1..], candidates[1..]);
    } else {
      SumMonotone(ranks, candidates);
    }
  }

  /** First column of the block of order o: the parameters of the lower orders. */
  function ColumnStart(nparam: seq<nat>, o: nat): nat
    requires o <= |nparam|
  {
    Sum(nparam[..o])
  }

  /** A row of width n holding v in columns start .. start + |v| and zero
      everywhere else. */
  function PlacedRow(v: seq<real>, start: nat, n: nat): (r: seq<real>)
    ensures |r| == n
    ensures forall j :: 0 <= j < n && r[j] != 0.0 ==> start <= j < start + |v|
  {
    seq(n, j requires 0 <= j < n => if start <= j < start + |v| then v[j - start] else 0.0)
  }

  /** The unit row of width n with its one on column i. */
  function UnitRow(i: nat, n: nat): (r: seq<real>)
    ensures |r| == n
  {
    seq(n, j requires 0 <= j < n => if j == i then 1.0 else 0.0)
  }

  /** The rows of one order: each of its reduced vectors in the order's block. */
  function OrderBlock(vs: seq<seq<real>>, start: nat, n: nat): (r: seq<seq<real>>)
    ensures |r| == |vs| && forall k :: 0 <= k < |r| ==> |r[k]| == n
  {
    seq(|vs|, k requires 0 <= k < |vs| => PlacedRow(vs[k], start, n))
  }

  /** The rows of the orders lo .. hi, order after order. */
  function OrderRows(reduced: seq<seq<seq<real>>>, nparam: seq<nat>, lo: nat, hi: nat, n: nat): (r: seq<seq<real>>)
    requires lo <= hi <= |reduced| == |nparam|
    ensures |r| == Sum(Ranks(reduced)[lo..hi])
    ensures forall i :: 0 <= i < |r| ==> |r[i]| == n
    decreases hi
  {
    if hi == lo then []
    else
      SumSliceStep(Ranks(reduced), lo, hi);
      OrderRows(reduced, nparam, lo, hi - 1, n) + OrderBlock(reduced[hi - 1], ColumnStart(nparam, hi - 1), n)
  }

  /** The harmonic unit rows when the harmonic block is fixed. */
  function HeadRows(nparam: seq<nat>, fixHarmonic: bool, n: nat): (r: seq<seq<real>>)
    requires fixHarmonic ==> |nparam| >= 1
    ensures |r| == if fixHarmonic then nparam[0] else 0
    ensures forall i :: 0 <= i < |r| ==> |r[i]| == n
  {
    if fixHarmonic then seq(nparam[0], i requires 0 <= i < nparam[0] => UnitRow(i, n)) else []
  }

  /** The first order laid out from the reduced vectors. */
  function FirstOrder(fixHarmonic: bool): nat {
    if fixHarmonic then 1 else 0
  }

  /** The constraint matrix C, one row per constraint, n columns. */
  function ConstraintRows(reduced: seq<seq<seq<real>>>, nparam: seq<nat>, fixHarmonic: bool, n: nat): (r: seq<seq<real>>)
    requires |reduced| == |nparam| && (fixHarmonic ==> |nparam| >= 1)
    ensures |r| == RowTotal(Ranks(reduced), nparam, fixHarmonic)
    ensures forall i :: 0 <= i < |r| ==> |r[i]| == n
  {
    assert Ranks(reduced)[FirstOrder(fixHarmonic)..|reduced|] == if fixHarmonic then Ranks(reduced)[1..] else Ranks(reduced);
    HeadRows(nparam, fixHarmonic, n) + OrderRows(reduced, nparam, FirstOrder(fixHarmonic), |reduced|, n)
  }

  /** The rows of C contributed before order o. */
  function ConstraintPrefix(reduced: seq<seq<seq<real>>>, nparam: seq<nat>, fixHarmonic: bool, o: nat, n: nat): seq<seq<real>>
    requires |reduced| == |nparam| && (fixHarmonic ==> |nparam| >= 1) && FirstOrder(fixHarmonic) <= o <= |reduced|
  {
    HeadRows(nparam, fixHarmonic, n) + OrderRows(reduced, nparam, FirstOrder(fixHarmonic), o, n)
  }

  lemma ConstraintPrefixStep(reduced: seq<seq<seq<real>>>, nparam: seq<nat>, fixHarmonic: bool, o: nat, n: nat)
    requires |reduced| == |nparam| && (fixHarmonic ==> |nparam| >= 1) && FirstOrder(fixHarmonic) <= o < |reduced|
    ensures ConstraintPrefix(reduced, nparam, fixHarmonic, o + 1, n)
            == ConstraintPrefix(reduced, nparam, fixHarmonic, o, n) + OrderBlock(reduced[o], ColumnStart(nparam, o), n)
    ensures |ConstraintPrefix(reduced, nparam, fixHarmonic, o, n)| == RowStart(reduced, nparam, fixHarmonic, o)
  {
    var head := HeadRows(nparam, fixHarmonic, n);
    var rows := OrderRows(reduced, nparam, FirstOrder(fixHarmonic), o, n);
    assert head + (rows + OrderBlock(reduced[o], ColumnStart(nparam, o), n))
           == (head + rows) + OrderBlock(reduced[o], ColumnStart(nparam, o), n);
  }

  /** The rows and columns of order o fit in C and the cursors advance by
      the order's rank and parameter count. */
  lemma OrderFits(reduced: seq<seq<seq<real>>>, nparam: seq<nat>, fixHarmonic: bool, o: nat)
    requires |reduced| == |nparam| && (fixHarmonic ==> |nparam| >= 1) && FirstOrder(fixHarmonic) <= o < |reduced|
    ensures RowStart(reduced, nparam, fixHarmonic, o + 1) == RowStart(reduced, nparam, fixHarmonic, o) + |reduced[o]|
    ensures RowStart(reduced, nparam, fixHarmonic, o + 1) <= RowTotal(Ranks(reduced), nparam, fixHarmonic)
    ensures ColumnStart(nparam, o + 1) == ColumnStart(nparam, o) + nparam[o] <= Sum(nparam)
  {
    var first := FirstOrder(fixHarmonic);
    SumSliceStep(Ranks(reduced), first, o + 1);
    SumSliceMonotone(Ranks(reduced), first, o + 1, |reduced|);
    assert Ranks(reduced)[first..|reduced|] == Ranks(reduced)[first..];
    SumStep(nparam, o);
    SumPrefix(nparam, o + 1);
  }

  /** The right-hand side d: the reference values on the harmonic unit rows,
      zero on every other row. */
  function ConstraintRhs(nparam: seq<nat>, fixHarmonic: bool, values: seq<real>, p: nat): (r: seq<real>)
    requires fixHarmonic ==> |nparam| >= 1 && |values| >= nparam[0]
    ensures |r| == p
    ensures forall i :: 0 <= i < p && !(fixHarmonic && i < nparam[0]) ==> r[i] == 0.0
  {
    seq(p, i requires 0 <= i < p => if fixHarmonic && i < nparam[0] then values[i] else 0.0)
  }

  /** Row r of order o sits at row RowStart(o) + r and is the r-th reduced
      vector of that order in the order's column block. */
  lemma {:induction false} OrderRowsAt(reduced: seq<seq<seq<real>>>, nparam: seq<nat>, lo: nat, hi: nat, n: nat, o: nat, k: nat)
    requires lo <= o < hi <= |reduced| == |nparam| && k < |reduced[o]|
    ensures Sum(Ranks(reduced)[lo..o]) + k < Sum(Ranks(reduced)[lo..hi])
    ensures OrderRows(reduced, nparam, lo, hi, n)[Sum(Ranks(reduced)[lo..o]) + k] == PlacedRow(reduced[o][k], ColumnStart(nparam, o), n)
    decreases hi
  {
    if o < hi - 1 {
      OrderRowsAt(reduced, nparam, lo, hi - 1, n, o, k);
    }
    var s := Ranks(reduced);
    SumSliceStep(s, lo, hi);
    var front := OrderRows(reduced, nparam, lo, hi - 1, n);
    var block := OrderBlock(reduced[hi - 1], ColumnStart(nparam, hi - 1), n);
    assert OrderRows(reduced, nparam, lo, hi, n) == front + block;
    var i := Sum(s[lo..o]) + k;
    if o == hi - 1 {
      assert |front| == Sum(s[lo..o]);
      assert (front + block)[i] == block[k];
    } else {
      SumSliceMonotone(s, lo, o + 1, hi - 1);
      SumSliceStep(s, lo, o + 1);
      assert (front + block)[i] == front[i];
    }
  }

  /** First row of order o in C. */
  function RowStart(reduced: seq<seq<seq<real>>>, nparam: seq<nat>, fixHarmonic: bool, o: nat): nat
    requires |reduced| == |nparam| && (fixHarmonic ==> |nparam| >= 1) && FirstOrder(fixHarmonic) <= o <= |reduced|
  {
    (if fixHarmonic then nparam[0] else 0) + Sum(Ranks(reduced)[FirstOrder(fixHarmonic)..o])
  }

  /** Every row contributed by order o has non-zeros only in that order's
      column block, and it carries the order's reduced vector there. */
  lemma OrderRowInBlock(reduced: seq<seq<seq<real>>>, nparam: seq<nat>, fixHarmonic: bool, n: nat, o: nat, k: nat)
    requires |reduced| == |nparam| && (fixHarmonic ==> |nparam| >= 1)
    requires FirstOrder(fixHarmonic) <= o < |reduced| && k < |reduced[o]|
    ensures RowStart(reduced, nparam, fixHarmonic, o) + k < |ConstraintRows(reduced, nparam, fixHarmonic, n)|
    ensures var row := ConstraintRows(reduced, nparam, fixHarmonic, n)[RowStart(reduced, nparam, fixHarmonic, o) + k];
            && (forall j :: 0 <= j < n && row[j] != 0.0 ==> ColumnStart(nparam, o) <= j < ColumnStart(nparam, o) + |reduced[o][k]|)
            && (forall j :: ColumnStart(nparam, o) <= j < ColumnStart(nparam, o) + |reduced[o][k]| && j < n ==>
                  row[j] == reduced[o][k][j - ColumnStart(nparam, o)])
  {
    var lo := FirstOrder(fixHarmonic);
    OrderRowsAt(reduced, nparam, lo, |reduced|, n, o, k);
    if !fixHarmonic {
      assert Ranks(reduced)[0..] == Ranks(reduced);
    }
  }

  /** With the harmonic block fixed, the first nparam[0] rows are unit rows
      with the one on the diagonal. */
  lemma HarmonicRowsAreUnit(reduced: seq<seq<seq<real>>>, nparam: seq<nat>, n: nat, i: nat, j: nat)
    requires |reduced| == |nparam| >= 1 && i < nparam[0] && j < n
    ensures i < |ConstraintRows(reduced, nparam, true, n)|
    ensures ConstraintRows(reduced, nparam, true, n)[i][j] == if i == j then 1.0 else 0.0
  {
  }

  /** The last column block ends at the parameter count: icol == N at the end. */
  lemma ColumnBlocksCover(ndup: seq<seq<nat>>)
    ensures ColumnStart(GroupCounts(ndup), |ndup|) == NumParams(ndup)
  {
    assert GroupCounts(ndup)[..|ndup|] == GroupCounts(ndup);
    NumParamsIsSum(ndup);
  }

  /** The first rows of the matrix hold the given rows. */
  predicate RowsHeld(mat: array2<real>, rows: seq<seq<real>>, count: nat)
    reads mat
  {
    && count <= |rows| && count <= mat.Length0
    && forall i, j :: 0 <= i < count && 0 <= j < mat.Length1 && j < |rows[i]| ==> mat[i, j] == rows[i][j]
  }

  /** Rows lo .. hi of the matrix are zero. */
  predicate ZeroRows(mat: array2<real>, lo: nat, hi: nat)
    reads mat
  {
    hi <= mat.Length0 && forall i, j :: lo <= i < hi && 0 <= j < mat.Length1 ==> mat[i, j] == 0.0
  }

  /** Zero-fills the first p rows of C and the first p entries of d. */
  method ClearRows(constMat: array2<real>, constRhs: array<real>, p: nat)
    requires p <= constMat.Length0 && p <= constRhs.Length
    modifies constMat, constRhs
    ensures ZeroRows(constMat, 0, p)
    ensures forall i :: 0 <= i < p ==> constRhs[i] == 0.0
    ensures forall i, j :: p <= i < constMat.Length0 && 0 <= j < constMat.Length1 ==> constMat[i, j] == old(constMat[i, j])
    ensures constRhs[p..] == old(constRhs[p..])
  {
    var i := 0;
    while i < p
      invariant 0 <= i <= p
      invariant ZeroRows(constMat, 0, i)
      invariant forall k :: 0 <= k < i ==> constRhs[k] == 0.0
      invariant forall i', j :: i <= i' < constMat.Length0 && 0 <= j < constMat.Length1 ==> constMat[i', j] == old(constMat[i', j])
      invariant constRhs[i..] == old(constRhs[i..])
    {
      var j := 0;
      while j < constMat.Length1
        invariant 0 <= j <= constMat.Length1
        invariant ZeroRows(constMat, 0, i)
        invariant forall j' :: 0 <= j' < j ==> constMat[i, j'] == 0.0
        invariant forall i', j' :: i < i' < constMat.Length0 && 0 <= j' < constMat.Length1 ==> constMat[i', j'] == old(constMat[i', j'])
        invariant forall j' :: j <= j' < constMat.Length1 ==> constMat[i, j'] == old(constMat[i, j'])
        invariant forall k :: 0 <= k < i ==> constRhs[k] == 0.0
        invariant constRhs[i..] == old(constRhs[i..])
      {
        constMat[i, j] := 0.0;
        j := j + 1;
      }
      constRhs[i] := 0.0;
      i := i + 1;
    }
  }

  /** Writes v into the zero row `row` from column start on. */
  method WriteRow(constMat: array2<real>, row: nat, start: nat, v: seq<real>)
    requires row < constMat.Length0 && start + |v| <= constMat.Length1
    requires forall j :: 0 <= j < constMat.Length1 ==> constMat[row, j] == 0.0
    modifies constMat
    ensures forall j :: 0 <= j < constMat.Length1 ==> constMat[row, j] == PlacedRow(v, start, constMat.Length1)[j]
    ensures forall i, j :: 0 <= i < constMat.Length0 && i != row && 0 <= j < constMat.Length1 ==> constMat[i, j] == old(constMat[i, j])
  {
    var i := 0;
    while i < |v|
      invariant 0 <= i <= |v|
      invariant forall j :: 0 <= j < constMat.Length1 ==>
                  constMat[row, j] == if start <= j < start + i then v[j - start] else 0.0
      invariant forall i', j :: 0 <= i' < constMat.Length0 && i' != row && 0 <= j < constMat.Length1 ==> constMat[i', j] == old(constMat[i', j])
    {
      constMat[row, start + i] := v[i];
      i := i + 1;
    }
  }

  /** Lays the reduced vectors of one order into consecutive zero rows from
      row0 on, in the column block starting at start. */
  method PlaceOrder(constMat: array2<real>, vs: seq<seq<real>>, row0: nat, start: nat, width: nat,
                    ghost done: seq<seq<real>>) returns (row: nat)
    requires row0 + |vs| <= constMat.Length0 && start + width <= constMat.Length1
    requires forall k :: 0 <= k < |vs| ==> |vs[k]| == width
    requires |done| == row0 && RowsHeld(constMat, done, row0)
    requires ZeroRows(constMat, row0, row0 + |vs|)
    modifies constMat
    ensures row == row0 + |vs|
    ensures RowsHeld(constMat, done + OrderBlock(vs, start, constMat.Length1), row)
    ensures forall i, j :: row <= i < constMat.Length0 && 0 <= j < constMat.Length1 ==> constMat[i, j] == old(constMat[i, j])
  {
    var n := constMat.Length1;
    row := row0;
    var k := 0;
    while k < |vs|
      invariant 0 <= k <= |vs| && row == row0 + k
      invariant RowsHeld(constMat, done + OrderBlock(vs[..k], start, n), row)
      invariant forall i, j :: row <= i < constMat.Length0 && 0 <= j < n ==> constMat[i, j] == old(constMat[i, j])
    {
      ghost var before := done + OrderBlock(vs[..k], start, n);
      WriteRow(constMat, row, start, vs[k]);
      assert done + OrderBlock(vs[..k + 1], start, n) == before + [PlacedRow(vs[k], start, n)];
      row := row + 1;
      k := k + 1;
    }
    assert vs[..k] == vs;
  }

  /** Writes the harmonic unit rows and their reference values. */
  method WriteUnitRows(constMat: array2<real>, constRhs: array<real>, count: nat, values: seq<real>)
    requires count <= constMat.Length0 && count <= constMat.Length1 && count <= constRhs.Length && count <= |values|
    requires ZeroRows(constMat, 0, count)
    modifies constMat, constRhs
    ensures forall i, j :: 0 <= i < count && 0 <= j < constMat.Length1 ==> constMat[i, j] == UnitRow(i, constMat.Length1)[j]
    ensures forall i :: 0 <= i < count ==> constRhs[i] == values[i]
    ensures forall i, j :: count <= i < constMat.Length0 && 0 <= j < constMat.Length1 ==> constMat[i, j] == old(constMat[i, j])
    ensures constRhs[count..] == old(constRhs[count..])
  {
    var i := 0;
    while i < count
      invariant 0 <= i <= count
      invariant forall i', j :: 0 <= i' < count && 0 <= j < constMat.Length1 ==>
                  constMat[i', j] == if i' < i && i' == j then 1.0 else 0.0
      invariant forall i' :: 0 <= i' < i ==> constRhs[i'] == values[i']
      invariant forall i', j :: count <= i' < constMat.Length0 && 0 <= j < constMat.Length1 ==> constMat[i', j] == old(constMat[i', j])
      invariant constRhs[i..] == old(constRhs[i..])
    {
      constMat[i, i] := 1.0;
      constRhs[i] := values[i];
      i := i + 1;
    }
  }

  /** The values listed in the reference file, if it has any. */
  function ReferenceValues(file: ReferenceFile): seq<real> {
    if file.WithMarker? then file.values else []
  }

  /** Builds C and d into the first P rows of constMat and constRhs (P from
      the per-order ranks), or stops with the reason the harmonic reference
      file is unusable. Rows from P on are never touched. */
  method BuildConstraints(constMat: array2<real>, constRhs: array<real>, reduced: seq<seq<seq<real>>>,
                          nparam: seq<nat>, fixHarmonic: bool, file: ReferenceFile) returns (outcome: Outcome)
    requires |reduced| == |nparam| && (fixHarmonic ==> |nparam| >= 1)
    requires forall o, k :: 0 <= o < |reduced| && 0 <= k < |reduced[o]| ==> |reduced[o][k]| == nparam[o]
    requires constMat.Length1 == Sum(nparam)
    requires RowTotal(Ranks(reduced), nparam, fixHarmonic) <= constMat.Length0 == constRhs.Length
    requires file.WithMarker? ==> |file.values| >= file.count
    modifies constMat, constRhs
    ensures outcome.Rejected? <==> fixHarmonic && !(file.WithMarker? && file.count == nparam[0])
    ensures fixHarmonic && file.CannotOpen? ==> outcome == Rejected(ReferenceUnreadable)
    ensures fixHarmonic && file.WithoutMarker? ==> outcome == Rejected(ReferenceMarkerMissing)
    ensures fixHarmonic && file.WithMarker? && file.count != nparam[0] ==> outcome == Rejected(ReferenceCountMismatch)
    ensures outcome.Built? ==>
              && outcome.rows == RowTotal(Ranks(reduced), nparam, fixHarmonic)
              && RowsHeld(constMat, ConstraintRows(reduced, nparam, fixHarmonic, constMat.Length1), outcome.rows)
              && constRhs[..outcome.rows] == ConstraintRhs(nparam, fixHarmonic, ReferenceValues(file), outcome.rows)
    ensures forall i, j :: RowTotal(Ranks(reduced), nparam, fixHarmonic) <= i < constMat.Length0 && 0 <= j < constMat.Length1 ==>
              constMat[i, j] == old(constMat[i, j])
  {
    var n := constMat.Length1;
    var p := CountRows(Ranks(reduced), nparam, fixHarmonic);
    ClearRows(constMat, constRhs, p);
    if fixHarmonic {
      match file
      case CannotOpen =>
        return Rejected(ReferenceUnreadable);
      case WithoutMarker =>
        return Rejected(ReferenceMarkerMissing);
      case WithMarker(count, values) =>
        if count != nparam[0] {
          return Rejected(ReferenceCountMismatch);
        }
        SumFirst(nparam);
        ghost var cleared := constRhs[..];
        WriteUnitRows(constMat, constRhs, nparam[0], values);
        forall i | nparam[0] <= i < p ensures constRhs[i] == 0.0 {
          assert constRhs[i] == constRhs[nparam[0]..][i - nparam[0]] == cleared[nparam[0]..][i - nparam[0]];
        }
    }
    ghost var rhs := ConstraintRhs(nparam, fixHarmonic, ReferenceValues(file), p);
    assert constRhs[..p] == rhs by {
      forall i | 0 <= i < p ensures constRhs[..p][i] == rhs[i] {
        if !(fixHarmonic && i < nparam[0]) {
          assert rhs[i] == 0.0;
        }
      }
    }
    PlaceOrders(constMat, reduced, nparam, fixHarmonic, p);
    return Built(p);
  }

  /** Lays the reduced vectors of every order from FirstOrder on into the
      zero rows after the harmonic unit rows, each order in its column block:
      the cursors irow and icol advance by the order's rank and parameter
      count. */
  method PlaceOrders(constMat: array2<real>, reduced: seq<seq<seq<real>>>, nparam: seq<nat>, fixHarmonic: bool, p: nat)
    requires |reduced| == |nparam| && (fixHarmonic ==> |nparam| >= 1)
    requires forall o, k :: 0 <= o < |reduced| && 0 <= k < |reduced[o]| ==> |reduced[o][k]| == nparam[o]
    requires constMat.Length1 == Sum(nparam)
    requires p == RowTotal(Ranks(reduced), nparam, fixHarmonic) <= constMat.Length0
    requires RowsHeld(constMat, HeadRows(nparam, fixHarmonic, constMat.Length1), if fixHarmonic then nparam[0] else 0)
    requires ZeroRows(constMat, if fixHarmonic then nparam[0] else 0, p)
    modifies constMat
    ensures RowsHeld(constMat, ConstraintRows(reduced, nparam, fixHarmonic, constMat.Length1), p)
    ensures forall i, j :: p <= i < constMat.Length0 && 0 <= j < constMat.Length1 ==> constMat[i, j] == old(constMat[i, j])
  {
    var n := constMat.Length1;
    var first := FirstOrder(fixHarmonic);
    var irow := if fixHarmonic then nparam[0] else 0;
    var icol := if fixHarmonic then nparam[0] else 0;
    ghost var done := HeadRows(nparam, fixHarmonic, n);
    if fixHarmonic {
      assert nparam[..1] == [nparam[0]] && [nparam[0]][..0] == [];
      assert ColumnStart(nparam, 1) == Sum([]) + nparam[0];
    } else {
      assert nparam[..0] == [];
    }
    assert done == ConstraintPrefix(reduced, nparam, fixHarmonic, first, n);
    var o := first;
    while o < |reduced|
      invariant first <= o <= |reduced|
      invariant icol == ColumnStart(nparam, o)
      invariant done == ConstraintPrefix(reduced, nparam, fixHarmonic, o, n)
      invariant irow == |done| == RowStart(reduced, nparam, fixHarmonic, o) <= p
      invariant RowsHeld(constMat, done, irow)
      invariant ZeroRows(constMat, irow, p)
      invariant forall i, j :: p <= i < constMat.Length0 && 0 <= j < n ==> constMat[i, j] == old(constMat[i, j])
    {
      OrderFits(reduced, nparam, fixHarmonic, o);
      ConstraintPrefixStep(reduced, nparam, fixHarmonic, o, n);
      irow := PlaceOrder(constMat, reduced[o], irow, icol, nparam[o], done);
      done := done + OrderBlock(reduced[o], icol, n);
      icol := icol + nparam[o];
      o := o + 1;
    }
  }
}
