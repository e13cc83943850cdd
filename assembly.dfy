/** The direct-fitting design matrix: what every entry of amat is, and the
    two inner steps of its assembly (one parameter group, one snapshot). */
module Assembly {
  import opened Combinatorics
  import opened AtomMap
  import opened FcTerms
  import opened Arith

  /** The displacement coordinates of a record (all but the first) index a
      snapshot of the given width. */
  predicate DispWithin(t: FcProperty, width: nat) {
    forall j :: 1 <= j < |t.elems| ==> t.elems[j] < width
  }

  /** A record can be placed: its force coordinate is on an atom of the
      primitive cell and its displacement coordinates are in range. */
  predicate TermResolvable(t: FcProperty, reps: seq<nat>, width: nat) {
    |t.elems| >= 1 && t.elems[0] / 3 in reps && DispWithin(t, width)
  }

  predicate AllResolvable(ts: seq<FcProperty>, reps: seq<nat>, width: nat) {
    forall m :: 0 <= m < |ts| ==> TermResolvable(ts[m], reps, width)
  }

  /** Product of the displacements at the given coordinates. */
  function DispProduct(idx: seq<nat>, u: seq<real>): real
    requires forall j :: 0 <= j < |idx| ==> idx[j] < |u|
  {
    if idx == [] then 1.0 else DispProduct(idx[..|idx| - 1], u) * u[idx[|idx| - 1]]
  }

  /** Contribution of one record to its row: multiplicity factor, times
      coefficient, times the product of the displacements it names. */
  function TermValue(t: FcProperty, u: seq<real>): real
    requires |t.elems| >= 1 && DispWithin(t, |u|)
  {
    Contribution(GammaValue(t.elems), t.coef, DispProduct(t.elems[1..], u))
  }

  /** The product the source forms for one record, in its order of
      evaluation. */
  function Contribution(g: real, c: real, p: real): real { g * c * p }

  /** Entry of one parameter's column at row r of a snapshot block: minus the
      sum of the contributions of the group's records whose force coordinate
      maps to row r. */
  function GroupEntry(ts: seq<FcProperty>, reps: seq<nat>, u: seq<real>, r: nat): real
    requires AllResolvable(ts, reps, |u|)
  {
    if ts == [] then 0.0
    else
      var t := ts[|ts| - 1];
      GroupEntry(ts[..|ts| - 1], reps, u, r)
        - (if RowOfCoordinate(reps, t.elems[0]) == r then TermValue(t, u) else 0.0)
  }

  /** A row that no record of the group maps to holds 0. */
  lemma {:induction false} UntouchedRowIsZero(ts: seq<FcProperty>, reps: seq<nat>, u: seq<real>, r: nat)
    requires AllResolvable(ts, reps, |u|)
    requires forall m :: 0 <= m < |ts| ==> RowOfCoordinate(reps, ts[m].elems[0]) != r
    ensures GroupEntry(ts, reps, u, r) == 0.0
  {
    if ts != [] {
      UntouchedRowIsZero(ts[..|ts| - 1], reps, u, r);
    }
  }

  /** Appending one record to the processed slice changes only its row. */
  lemma GroupEntryStep(fc: seq<FcProperty>, lo: nat, hi: nat, reps: seq<nat>, u: seq<real>, r: nat)
    requires lo <= hi < |fc| && AllResolvable(fc, reps, |u|)
    ensures AllResolvable(fc[lo..hi], reps, |u|) && AllResolvable(fc[lo..hi + 1], reps, |u|)
    ensures GroupEntry(fc[lo..hi + 1], reps, u, r) == GroupEntry(fc[lo..hi], reps, u, r)
      - (if RowOfCoordinate(reps, fc[hi].elems[0]) == r then TermValue(fc[hi], u) else 0.0)
  {
    var s := fc[lo..hi + 1];
    assert s[..hi - lo] == fc[lo..hi] && s[hi - lo] == fc[hi];
    assert AllResolvable(s, reps, |u|) by {
      forall m | 0 <= m < |s| ensures TermResolvable(s[m], reps, |u|) {
        assert s[m] == fc[lo + m];
      }
    }
  }

  /** The entries of a whole snapshot block after one more record. */
  lemma GroupColumnStep(fc: seq<FcProperty>, lo: nat, hi: nat, reps: seq<nat>, u: seq<real>,
                        acc: seq<real>, r: nat, v: real, acc': seq<real>)
    requires lo <= hi < |fc| && AllResolvable(fc, reps, |u|)
    requires AllResolvable(fc[lo..hi], reps, |u|)
    requires forall r' :: 0 <= r' < |acc| ==> acc[r'] == GroupEntry(fc[lo..hi], reps, u, r')
    requires r < |acc| && r == RowOfCoordinate(reps, fc[hi].elems[0]) && v == TermValue(fc[hi], u)
    requires acc' == acc[r := acc[r] - v]
    ensures AllResolvable(fc[lo..hi + 1], reps, |u|)
    ensures forall r' :: 0 <= r' < |acc'| ==> acc'[r'] == GroupEntry(fc[lo..hi + 1], reps, u, r')
  {
    forall r' | 0 <= r' < |acc'|
      ensures acc'[r'] == GroupEntry(fc[lo..hi + 1], reps, u, r')
    {
      GroupEntryStep(fc, lo, hi, reps, u, r');
    }
  }

  lemma DispProductStep(e: seq<nat>, j: nat, u: seq<real>)
    requires 1 <= j < |e| && forall i :: 1 <= i < |e| ==> e[i] < |u|
    ensures DispProduct(e[1..j + 1], u) == DispProduct(e[1..j], u) * u[e[j]]
  {
    assert e[1..j + 1][..j - 1] == e[1..j];
  }

  /** Entry (k, c) lies outside rows row0 .. row0 + height of column col. */
  predicate OutsideColumnBlock(k: nat, c: nat, row0: nat, col: nat, height: nat) {
    c != col || k < row0 || row0 + height <= k
  }

  /** Adds one group's records into column col of the snapshot block that
      starts at row row0, reading records mm0 .. mm0 + cnt of its order. */
  method AccumulateGroup(amat: array2<real>, ind: array<int>, row0: nat, col: nat,
                         fc: seq<FcProperty>, mm0: nat, cnt: nat, order: nat,
                         reps: seq<nat>, u: seq<real>) returns (mm: nat)
    requires mm0 + cnt <= |fc| && AllResolvable(fc, reps, |u|)
    requires forall m :: 0 <= m < |fc| ==> |fc[m].elems| == order + 2
    requires order + 2 <= ind.Length
    requires row0 + 3 * |reps| <= amat.Length0 && col < amat.Length1
    modifies amat, ind
    ensures mm == mm0 + cnt
    ensures AllResolvable(fc[mm0..mm], reps, |u|)
    ensures forall k | row0 <= k < row0 + 3 * |reps| ::
      amat[k, col] == old(amat[k, col]) + GroupEntry(fc[mm0..mm], reps, u, k - row0)
    ensures forall k, c | 0 <= k < amat.Length0 && 0 <= c < amat.Length1 ::
      OutsideColumnBlock(k, c, row0, col, 3 * |reps|) ==> amat[k, c] == old(amat[k, c])
  {
    mm := mm0;
    ghost var acc := seq(3 * |reps|, r' => 0.0);
    assert forall r' :: GroupEntry(fc[mm0..mm0], reps, u, r') == 0.0 by {
      assert fc[mm0..mm0] == [];
    }
    while mm < mm0 + cnt
      invariant mm0 <= mm <= mm0 + cnt
      invariant AllResolvable(fc[mm0..mm], reps, |u|)
      invariant |acc| == 3 * |reps|
      invariant forall r' :: 0 <= r' < |acc| ==> acc[r'] == GroupEntry(fc[mm0..mm], reps, u, r')
      invariant forall k | row0 <= k < row0 + 3 * |reps| :: amat[k, col] == old(amat[k, col]) + acc[k - row0]
      invariant forall k, c | 0 <= k < amat.Length0 && 0 <= c < amat.Length1 ::
        OutsideColumnBlock(k, c, row0, col, 3 * |reps|) ==> amat[k, c] == old(amat[k, c])
    {
      acc := AccumulateRecord(amat, ind, row0, col, fc, mm0, mm, order, reps, u, acc);
      mm := mm + 1;
    }
  }

  /** Adds record mm into its row of column col; acc, the block's entries
      for the records before it, becomes the entries including it. */
  method AccumulateRecord(amat: array2<real>, ind: array<int>, row0: nat, col: nat,
                          fc: seq<FcProperty>, mm0: nat, mm: nat, order: nat,
                          reps: seq<nat>, u: seq<real>, ghost acc: seq<real>) returns (ghost acc': seq<real>)
    requires mm0 <= mm < |fc| && AllResolvable(fc, reps, |u|)
    requires forall m :: 0 <= m < |fc| ==> |fc[m].elems| == order + 2
    requires order + 2 <= ind.Length
    requires row0 + 3 * |reps| <= amat.Length0 && col < amat.Length1
    requires AllResolvable(fc[mm0..mm], reps, |u|) && |acc| == 3 * |reps|
    requires forall r' :: 0 <= r' < |acc| ==> acc[r'] == GroupEntry(fc[mm0..mm], reps, u, r')
    modifies amat, ind
    ensures AllResolvable(fc[mm0..mm + 1], reps, |u|) && |acc'| == 3 * |reps|
    ensures forall r' :: 0 <= r' < |acc'| ==> acc'[r'] == GroupEntry(fc[mm0..mm + 1], reps, u, r')
    ensures forall k | row0 <= k < row0 + 3 * |reps| :: amat[k, col] == old(amat[k, col]) + (acc'[k - row0] - acc[k - row0])
    ensures forall k, c | 0 <= k < amat.Length0 && 0 <= c < amat.Length1 ::
      OutsideColumnBlock(k, c, row0, col, 3 * |reps|) ==> amat[k, c] == old(amat[k, c])
  {
    var t := fc[mm];
    assert TermResolvable(t, reps, |u|);
    var r, v := PlaceTerm(ind, t, order, reps, u);
    acc' := acc[r := acc[r] - v];
    GroupColumnStep(fc, mm0, mm, reps, u, acc, r, v, acc');
    SubtractEntry(amat, row0 + r, col, v);
  }

  /** amat[i, j] -= v. */
  method SubtractEntry(amat: array2<real>, i: nat, j: nat, v: real)
    requires i < amat.Length0 && j < amat.Length1
    modifies amat
    ensures amat[i, j] == old(amat[i, j]) - v
    ensures forall k, c | 0 <= k < amat.Length0 && 0 <= c < amat.Length1 && (k != i || c != j) ::
      amat[k, c] == old(amat[k, c])
  {
    amat[i, j] := amat[i, j] - v;
  }

  /** Evaluates one record: the row of its force coordinate within a snapshot
      block and its contribution there. */
  method PlaceTerm(ind: array<int>, t: FcProperty, order: nat, reps: seq<nat>, u: seq<real>)
      returns (r: nat, v: real)
    requires TermResolvable(t, reps, |u|) && |t.elems| == order + 2 <= ind.Length
    modifies ind
    ensures r == RowOfCoordinate(reps, t.elems[0]) && r < 3 * |reps|
    ensures v == TermValue(t, u)
  {
    r := InprimIndex(reps, t.elems[0]);
    var amatTmp := LoadRecord(ind, t, order, u);
    var g := Gamma(order + 2, ind);
    v := Contribution(g, t.coef, amatTmp);
  }

  /** Copies the index tuple of a record into ind and multiplies the
      displacements at its displacement coordinates. */
  method LoadRecord(ind: array<int>, t: FcProperty, order: nat, u: seq<real>) returns (amatTmp: real)
    requires |t.elems| == order + 2 <= ind.Length && DispWithin(t, |u|)
    modifies ind
    ensures ind[..order + 2] == t.elems
    ensures amatTmp == DispProduct(t.elems[1..], u)
  {
    ind[0] := t.elems[0];
    amatTmp := 1.0;
    var j := 1;
    while j < order + 2
      invariant 1 <= j <= order + 2
      invariant forall i :: 0 <= i < j ==> ind[i] == t.elems[i]
      invariant amatTmp == DispProduct(t.elems[1..j], u)
    {
      ind[j] := t.elems[j];
      DispProductStep(t.elems, j, u);
      amatTmp := amatTmp * u[t.elems[j]];
      j := j + 1;
    }
    assert ind[..order + 2] == t.elems;
    assert t.elems[1..] == t.elems[1..order + 2];
  }

  /** Every record of every order can be placed. */
  predicate Placeable(ndup: seq<seq<nat>>, fcSet: seq<seq<FcProperty>>, reps: seq<nat>, width: nat) {
    ValidTerms(ndup, fcSet) && forall o :: 0 <= o < |fcSet| ==> AllResolvable(fcSet[o], reps, width)
  }

  lemma {:induction false} ParamTermResolvable(ndup: seq<seq<nat>>, fcSet: seq<seq<FcProperty>>,
                                               reps: seq<nat>, width: nat, p: nat)
    requires Placeable(ndup, fcSet, reps, width) && p < NumParams(ndup)
    ensures AllResolvable(ParamTerms(ndup, fcSet)[p], reps, width)
  {
    var n := |ndup|;
    ValidTermsPrefix(ndup, fcSet, n - 1);
    var front := ParamTerms(ndup[..n - 1], fcSet[..n - 1]);
    assert ParamTerms(ndup, fcSet) == front + GroupSlices(ndup[n - 1], fcSet[n - 1]);
    if p < |front| {
      assert Placeable(ndup[..n - 1], fcSet[..n - 1], reps, width);
      ParamTermResolvable(ndup[..n - 1], fcSet[..n - 1], reps, width, p);
    } else {
      var g := p - |front|;
      GroupSliceAt(ndup[n - 1], fcSet[n - 1], g);
      assert AllResolvable(fcSet[n - 1], reps, width);
    }
  }

  /** Entry of parameter p's column at row r of the block of a snapshot
      with displacements u. */
  function DesignEntry(ndup: seq<seq<nat>>, fcSet: seq<seq<FcProperty>>, reps: seq<nat>,
                       u: seq<real>, p: nat, r: nat): real
    requires Placeable(ndup, fcSet, reps, |u|) && p < NumParams(ndup)
  {
    ParamTermResolvable(ndup, fcSet, reps, |u|, p);
    GroupEntry(ParamTerms(ndup, fcSet)[p], reps, u, r)
  }

  /** The column of group g of order o is the group's slice of records. */
  lemma DesignEntryOfGroup(ndup: seq<seq<nat>>, fcSet: seq<seq<FcProperty>>, reps: seq<nat>,
                           u: seq<real>, o: nat, g: nat, r: nat)
    requires Placeable(ndup, fcSet, reps, |u|) && o < |ndup| && g < |ndup[o]|
    ensures NumParams(ndup[..o]) + g < NumParams(ndup)
    ensures Sum(ndup[o][..g + 1]) <= |fcSet[o]| && Sum(ndup[o][..g]) <= Sum(ndup[o][..g + 1])
    ensures AllResolvable(fcSet[o][Sum(ndup[o][..g])..Sum(ndup[o][..g + 1])], reps, |u|)
    ensures DesignEntry(ndup, fcSet, reps, u, NumParams(ndup[..o]) + g, r)
      == GroupEntry(fcSet[o][Sum(ndup[o][..g])..Sum(ndup[o][..g + 1])], reps, u, r)
  {
    ParamTermsAt(ndup, fcSet, o, g);
    GroupSliceAt(ndup[o], fcSet[o], g);
    assert AllResolvable(fcSet[o], reps, |u|);
  }

  /** The representative atoms lie in a snapshot of the given width. */
  predicate RepsWithin(reps: seq<nat>, width: nat) {
    forall i :: 0 <= i < |reps| ==> 3 * reps[i] + 3 <= width
  }

  /** Right-hand side at row r of a snapshot block: the force on direction
      r % 3 of representative atom r / 3. */
  function ForceEntry(reps: seq<nat>, f: seq<real>, r: nat): real
    requires r < 3 * |reps| && RepsWithin(reps, |f|)
  {
    f[3 * reps[r / 3] + r % 3]
  }

  /** Adds the groups of one order into columns iparam0 .. of the snapshot
      block at row idata. */
  method AssembleOrder(amat: array2<real>, ind: array<int>, idata: nat, order: nat, iparam0: nat,
                       ndup: seq<seq<nat>>, fcSet: seq<seq<FcProperty>>, reps: seq<nat>, u: seq<real>)
      returns (iparam: nat)
    requires Placeable(ndup, fcSet, reps, |u|) && order < |ndup| && order + 2 <= ind.Length
    requires iparam0 == NumParams(ndup[..order])
    requires idata + 3 * |reps| <= amat.Length0 && amat.Length1 == NumParams(ndup)
    requires forall k, p | idata <= k < idata + 3 * |reps| && iparam0 <= p < amat.Length1 :: amat[k, p] == 0.0
    modifies amat, ind
    ensures iparam == NumParams(ndup[..order + 1]) <= amat.Length1
    ensures forall k, p | idata <= k < idata + 3 * |reps| && iparam0 <= p < iparam ::
      amat[k, p] == DesignEntry(ndup, fcSet, reps, u, p, k - idata)
    ensures forall k, p | idata <= k < idata + 3 * |reps| && iparam <= p < amat.Length1 :: amat[k, p] == 0.0
    ensures forall k, c | 0 <= k < amat.Length0 && 0 <= c < amat.Length1 ::
      (k < idata || idata + 3 * |reps| <= k || c < iparam0) ==> amat[k, c] == old(amat[k, c])
  {
    NumParamsPrefix(ndup, order);
    var fc := fcSet[order];
    var sizes := ndup[order];
    assert AllResolvable(fc, reps, |u|) && Sum(sizes) <= |fc|;
    var mm := 0;
    var g := 0;
    iparam := iparam0;
    while g < |sizes|
      invariant 0 <= g <= |sizes|
      invariant mm == Sum(sizes[..g]) && iparam == iparam0 + g
      invariant forall k, p | idata <= k < idata + 3 * |reps| && iparam0 <= p < iparam ::
        amat[k, p] == DesignEntry(ndup, fcSet, reps, u, p, k - idata)
      invariant forall k, p | idata <= k < idata + 3 * |reps| && iparam <= p < amat.Length1 :: amat[k, p] == 0.0
      invariant forall k, c | 0 <= k < amat.Length0 && 0 <= c < amat.Length1 ::
        (k < idata || idata + 3 * |reps| <= k || c < iparam0) ==> amat[k, c] == old(amat[k, c])
    {
      mm := AssembleGroup(amat, ind, idata, order, g, mm, iparam, ndup, fcSet, reps, u);
      iparam := iparam + 1;
      g := g + 1;
    }
  }

  /** Fills column iparam of the snapshot block with group g of the order:
      mm advances over the group's ndup[order][g] records. */
  method AssembleGroup(amat: array2<real>, ind: array<int>, idata: nat, order: nat, g: nat, mm0: nat,
                       iparam: nat, ndup: seq<seq<nat>>, fcSet: seq<seq<FcProperty>>,
                       reps: seq<nat>, u: seq<real>) returns (mm: nat)
    requires Placeable(ndup, fcSet, reps, |u|) && order < |ndup| && g < |ndup[order]|
    requires order + 2 <= ind.Length
    requires mm0 == Sum(ndup[order][..g]) && iparam == NumParams(ndup[..order]) + g
    requires idata + 3 * |reps| <= amat.Length0 && iparam < amat.Length1 == NumParams(ndup)
    requires forall k | idata <= k < idata + 3 * |reps| :: amat[k, iparam] == 0.0
    modifies amat, ind
    ensures mm == Sum(ndup[order][..g + 1])
    ensures forall k | idata <= k < idata + 3 * |reps| ::
      amat[k, iparam] == DesignEntry(ndup, fcSet, reps, u, iparam, k - idata)
    ensures forall k, c | 0 <= k < amat.Length0 && 0 <= c < amat.Length1 ::
      OutsideColumnBlock(k, c, idata, iparam, 3 * |reps|) ==> amat[k, c] == old(amat[k, c])
  {
    var fc := fcSet[order];
    DesignEntryOfGroup(ndup, fcSet, reps, u, order, g, 0);
    SumStep(ndup[order], g);
    assert AllResolvable(fc, reps, |u|);
    mm := AccumulateGroup(amat, ind, idata, iparam, fc, mm0, ndup[order][g], order, reps, u);
    forall r | 0 <= r < 3 * |reps|
      ensures GroupEntry(fc[mm0..mm], reps, u, r) == DesignEntry(ndup, fcSet, reps, u, iparam, r)
    {
      DesignEntryOfGroup(ndup, fcSet, reps, u, order, g, r);
    }
  }

  /** Copies the forces on the representative atoms of one snapshot into
      fsum[im ..], three directions per atom; returns the advanced cursor. */
  method FillForces(fsum: array<real>, im: nat, reps: seq<nat>, f: seq<real>) returns (imNext: nat)
    requires RepsWithin(reps, |f|) && im + 3 * |reps| <= fsum.Length
    modifies fsum
    ensures imNext == im + 3 * |reps|
    ensures forall k | im <= k < imNext :: fsum[k] == ForceEntry(reps, f, k - im)
    ensures forall k | 0 <= k < fsum.Length && (k < im || imNext <= k) :: fsum[k] == old(fsum[k])
  {
    imNext := im;
    var i := 0;
    while i < |reps|
      invariant 0 <= i <= |reps| && imNext == im + 3 * i
      invariant forall k | im <= k < imNext :: fsum[k] == ForceEntry(reps, f, k - im)
      invariant forall k | 0 <= k < fsum.Length && (k < im || imNext <= k) :: fsum[k] == old(fsum[k])
    {
      var iat := reps[i];
      var j := 0;
      while j < 3
        invariant 0 <= j <= 3 && imNext == im + 3 * i + j
        invariant forall k | im <= k < imNext :: fsum[k] == ForceEntry(reps, f, k - im)
        invariant forall k | 0 <= k < fsum.Length && (k < im || imNext <= k) :: fsum[k] == old(fsum[k])
      {
        DivModOfOffset(3 * i + j, 3, i, j);
        fsum[imNext] := f[3 * iat + j];
        imNext := imNext + 1;
        j := j + 1;
      }
      i := i + 1;
    }
  }

  /** One snapshot: its right-hand side block at fsum[im ..] and its design
      block at amat[idata ..], whose rows must still be zero. */
  method AssembleSnapshot(amat: array2<real>, fsum: array<real>, ind: array<int>, im: nat, idata: nat,
                          ndup: seq<seq<nat>>, fcSet: seq<seq<FcProperty>>, reps: seq<nat>,
                          u: seq<real>, f: seq<real>) returns (imNext: nat, iparam: nat)
    requires Placeable(ndup, fcSet, reps, |u|) && RepsWithin(reps, |f|)
    requires ind.Length == |ndup| + 1
    requires im + 3 * |reps| <= fsum.Length
    requires idata + 3 * |reps| <= amat.Length0 && amat.Length1 == NumParams(ndup)
    requires forall k, p | idata <= k < idata + 3 * |reps| && 0 <= p < amat.Length1 :: amat[k, p] == 0.0
    modifies amat, fsum, ind
    ensures imNext == im + 3 * |reps| && iparam == NumParams(ndup)
    ensures forall k | im <= k < imNext :: fsum[k] == ForceEntry(reps, f, k - im)
    ensures forall k | 0 <= k < fsum.Length && (k < im || imNext <= k) :: fsum[k] == old(fsum[k])
    ensures forall k, p | idata <= k < idata + 3 * |reps| && 0 <= p < amat.Length1 ::
      amat[k, p] == DesignEntry(ndup, fcSet, reps, u, p, k - idata)
    ensures forall k, c | 0 <= k < amat.Length0 && 0 <= c < amat.Length1 && (k < idata || idata + 3 * |reps| <= k) ::
      amat[k, c] == old(amat[k, c])
  {
    imNext := FillForces(fsum, im, reps, f);
    iparam := 0;
    var order := 0;
    while order < |ndup|
      invariant 0 <= order <= |ndup| && iparam == NumParams(ndup[..order]) <= amat.Length1
      invariant forall k, p | idata <= k < idata + 3 * |reps| && 0 <= p < iparam ::
        amat[k, p] == DesignEntry(ndup, fcSet, reps, u, p, k - idata)
      invariant forall k, p | idata <= k < idata + 3 * |reps| && iparam <= p < amat.Length1 :: amat[k, p] == 0.0
      invariant forall k, c | 0 <= k < amat.Length0 && 0 <= c < amat.Length1 && (k < idata || idata + 3 * |reps| <= k) ::
        amat[k, c] == old(amat[k, c])
      invariant forall k | im <= k < imNext :: fsum[k] == ForceEntry(reps, f, k - im)
      invariant forall k | 0 <= k < fsum.Length && (k < im || imNext <= k) :: fsum[k] == old(fsum[k])
    {
      iparam := AssembleOrder(amat, ind, idata, order, iparam, ndup, fcSet, reps, u);
      order := order + 1;
    }
    assert ndup[..order] == ndup;
  }
}
