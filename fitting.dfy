/** The fitting driver: assembles the design matrix A and the force vector
    over all snapshots, generates the translational-invariance constraints,
    builds the constraint system and hands column-major buffers to the
    least-squares routines, whose results are inputs of the model.

    A snapshot is one displacement pattern (or one of its translated
    images): snapshot s = data * ntran + itran. Its block of the design
    matrix has 3 * natmin rows, one per direction of each representative
    atom. */
module Fit {
  import opened Arith
  import opened Combinatorics
  import opened FcTerms
  import opened Assembly
  import opened Layout
  import opened ConstraintMatrix
  import opened Translation

  /** Every snapshot has one value per coordinate of the supercell. */
  predicate SnapshotsFit(snaps: seq<seq<real>>, width: nat) {
    forall s :: 0 <= s < |snaps| ==> |snaps[s]| == width
  }

  /** The block of the design matrix of one displacement snapshot u. */
  function SnapshotRows(ndup: seq<seq<nat>>, fcSet: seq<seq<FcProperty>>, reps: seq<nat>, u: seq<real>): (r: seq<seq<real>>)
    requires Placeable(ndup, fcSet, reps, |u|)
    ensures |r| == 3 * |reps| && forall k :: 0 <= k < |r| ==> |r[k]| == NumParams(ndup)
  {
    seq(3 * |reps|, k requires 0 <= k => seq(NumParams(ndup), p requires 0 <= p < NumParams(ndup) => DesignEntry(ndup, fcSet, reps, u, p, k)))
  }

  /** The design matrix: the blocks of the snapshots, in snapshot order. */
  function DesignMatrix(ndup: seq<seq<nat>>, fcSet: seq<seq<FcProperty>>, reps: seq<nat>, width: nat,
                        disp: seq<seq<real>>): (r: seq<seq<real>>)
    requires Placeable(ndup, fcSet, reps, width) && SnapshotsFit(disp, width)
    ensures |r| == |disp| * (3 * |reps|)
    ensures forall k :: 0 <= k < |r| ==> |r[k]| == NumParams(ndup)
  {
    if disp == [] then []
    else
      var n := |disp| - 1;
      NextBlock(n, 3 * |reps|);
      DesignMatrix(ndup, fcSet, reps, width, disp[..n]) + SnapshotRows(ndup, fcSet, reps, disp[n])
  }

  /** The right-hand side: the forces on the representative atoms of each
      snapshot, in snapshot order. */
  function ForceVector(reps: seq<nat>, width: nat, force: seq<seq<real>>): (r: seq<real>)
    requires RepsWithin(reps, width) && SnapshotsFit(force, width)
    ensures |r| == |force| * (3 * |reps|)
  {
    if force == [] then []
    else
      var n := |force| - 1;
      NextBlock(n, 3 * |reps|);
      ForceVector(reps, width, force[..n]) + seq(3 * |reps|, k requires 0 <= k < 3 * |reps| => ForceEntry(reps, force[n], k))
  }

  /** Row s * 3natmin + r of the design matrix is row r of the block of
      snapshot s: the row cursor advances by 3 * natmin per snapshot. */
  lemma {:induction false} DesignMatrixAt(ndup: seq<seq<nat>>, fcSet: seq<seq<FcProperty>>, reps: seq<nat>, width: nat,
                                          disp: seq<seq<real>>, s: nat, r: nat, p: nat)
    requires Placeable(ndup, fcSet, reps, width) && SnapshotsFit(disp, width)
    requires s < |disp| && r < 3 * |reps| && p < NumParams(ndup)
    ensures s * (3 * |reps|) + r < |disp| * (3 * |reps|)
    ensures DesignMatrix(ndup, fcSet, reps, width, disp)[s * (3 * |reps|) + r][p] == DesignEntry(ndup, fcSet, reps, disp[s], p, r)
  {
    var n := |disp| - 1;
    var b := 3 * |reps|;
    BlockFits(s, |disp|, b);
    if s < n {
      DesignMatrixAt(ndup, fcSet, reps, width, disp[..n], s, r, p);
      BlockFits(s, n, b);
    }
  }

  /** Entry s * 3natmin + r of the force vector is the force of row r of
      snapshot s. */
  lemma {:induction false} ForceVectorAt(reps: seq<nat>, width: nat, force: seq<seq<real>>, s: nat, r: nat)
    requires RepsWithin(reps, width) && SnapshotsFit(force, width)
    requires s < |force| && r < 3 * |reps|
    ensures s * (3 * |reps|) + r < |force| * (3 * |reps|)
    ensures ForceVector(reps, width, force)[s * (3 * |reps|) + r] == ForceEntry(reps, force[s], r)
  {
    var n := |force| - 1;
    var b := 3 * |reps|;
    BlockFits(s, |force|, b);
    if s < n {
      ForceVectorAt(reps, width, force[..n], s, r);
      BlockFits(s, n, b);
    }
  }

  /** The inputs of the assembly: term records that resolve inside
      snapshots of the given width, and displacement and force snapshots of
      that width, as many of one as of the other. */
  predicate AssemblyInputs(ndup: seq<seq<nat>>, fcSet: seq<seq<FcProperty>>, reps: seq<nat>, width: nat,
                           disp: seq<seq<real>>, force: seq<seq<real>>) {
    && Placeable(ndup, fcSet, reps, width) && RepsWithin(reps, width)
    && SnapshotsFit(disp, width) && SnapshotsFit(force, width) && |disp| == |force|
  }

  /** The first snap snapshots are assembled into rows 0 .. row of amat and
      fsum; the remaining rows are still zero. */
  predicate AssembledUpTo(amat: array2<real>, fsum: array<real>, ndup: seq<seq<nat>>, fcSet: seq<seq<FcProperty>>,
                          reps: seq<nat>, width: nat, disp: seq<seq<real>>, force: seq<seq<real>>, snap: nat, row: nat)
    reads amat, fsum
  {
    && AssemblyInputs(ndup, fcSet, reps, width, disp, force)
    && snap <= |disp| && amat.Length1 == NumParams(ndup)
    && fsum.Length == amat.Length0 == |disp| * (3 * |reps|)
    && row == |ForceVector(reps, width, force[..snap])| && row <= amat.Length0
    && (forall k, p | 0 <= k < row && 0 <= p < amat.Length1 ::
          amat[k, p] == DesignMatrix(ndup, fcSet, reps, width, disp[..snap])[k][p])
    && fsum[..row] == ForceVector(reps, width, force[..snap])
    && (forall k, p | row <= k < amat.Length0 && 0 <= p < amat.Length1 :: amat[k, p] == 0.0)
  }

  /** Sets every entry of amat and fsum to zero. */
  method ClearSystem(amat: array2<real>, fsum: array<real>)
    requires fsum.Length == amat.Length0
    modifies amat, fsum
    ensures forall k, p | 0 <= k < amat.Length0 && 0 <= p < amat.Length1 :: amat[k, p] == 0.0
    ensures forall k | 0 <= k < fsum.Length :: fsum[k] == 0.0
  {
    var i := 0;
    while i < amat.Length0
      invariant 0 <= i <= amat.Length0
      invariant forall k, p | 0 <= k < i && 0 <= p < amat.Length1 :: amat[k, p] == 0.0
      invariant forall k | 0 <= k < i :: fsum[k] == 0.0
    {
      var j := 0;
      while j < amat.Length1
        invariant 0 <= j <= amat.Length1
        invariant forall k, p | 0 <= k < i && 0 <= p < amat.Length1 :: amat[k, p] == 0.0
        invariant forall p | 0 <= p < j :: amat[i, p] == 0.0
        invariant forall k | 0 <= k < i :: fsum[k] == 0.0
      {
        amat[i, j] := 0.0;
        j := j + 1;
      }
      fsum[i] := 0.0;
      i := i + 1;
    }
  }

  /** Appending the block of snapshot snap to the first snap blocks gives
      the first snap + 1 blocks of the design matrix. */
  lemma DesignStep(amat: array2<real>, ndup: seq<seq<nat>>, fcSet: seq<seq<FcProperty>>, reps: seq<nat>, width: nat,
                   disp: seq<seq<real>>, snap: nat, row: nat)
    requires Placeable(ndup, fcSet, reps, width) && SnapshotsFit(disp, width)
    requires snap < |disp| && amat.Length1 == NumParams(ndup)
    requires row == snap * (3 * |reps|) && row + 3 * |reps| <= amat.Length0
    requires forall k, p | 0 <= k < row && 0 <= p < amat.Length1 ::
               amat[k, p] == DesignMatrix(ndup, fcSet, reps, width, disp[..snap])[k][p]
    requires forall k, p | row <= k < row + 3 * |reps| && 0 <= p < amat.Length1 ::
               amat[k, p] == DesignEntry(ndup, fcSet, reps, disp[snap], p, k - row)
    ensures forall k, p | 0 <= k < row + 3 * |reps| && 0 <= p < amat.Length1 ::
              amat[k, p] == DesignMatrix(ndup, fcSet, reps, width, disp[..snap + 1])[k][p]
  {
    assert disp[..snap + 1][..snap] == disp[..snap] && disp[..snap + 1][snap] == disp[snap];
    assert DesignMatrix(ndup, fcSet, reps, width, disp[..snap + 1])
        == DesignMatrix(ndup, fcSet, reps, width, disp[..snap]) + SnapshotRows(ndup, fcSet, reps, disp[snap]);
  }

  /** The force vector of one more snapshot appends that snapshot's block. */
  lemma ForceVectorUnfold(reps: seq<nat>, width: nat, force: seq<seq<real>>, snap: nat)
    requires RepsWithin(reps, width) && SnapshotsFit(force, width) && snap < |force|
    ensures ForceVector(reps, width, force[..snap + 1])
         == ForceVector(reps, width, force[..snap]) + seq(3 * |reps|, k requires 0 <= k < 3 * |reps| => ForceEntry(reps, force[snap], k))
  {
    assert force[..snap + 1][..snap] == force[..snap] && force[..snap + 1][snap] == force[snap];
  }

  /** The same for the force vector. */
  lemma ForceStep(f: seq<real>, reps: seq<nat>, width: nat, force: seq<seq<real>>, snap: nat, row: nat)
    requires RepsWithin(reps, width) && SnapshotsFit(force, width)
    requires snap < |force| && row == snap * (3 * |reps|) && row + 3 * |reps| <= |f|
    requires f[..row] == ForceVector(reps, width, force[..snap])
    requires forall k | row <= k < row + 3 * |reps| :: f[k] == ForceEntry(reps, force[snap], k - row)
    ensures f[..row + 3 * |reps|] == ForceVector(reps, width, force[..snap + 1])
  {
    ForceVectorUnfold(reps, width, force, snap);
    ForceBlock(f, reps, force[snap], row);
    PrefixSplit(f, row, 3 * |reps|);
  }

  /** A prefix is the shorter prefix followed by the slice between them. */
  lemma PrefixSplit(f: seq<real>, row: nat, b: nat)
    requires row + b <= |f|
    ensures f[..row + b] == f[..row] + f[row..row + b]
  {
  }

  /** Entries row .. row + 3natmin holding the forces of one snapshot form
      that snapshot's block of the force vector. */
  lemma ForceBlock(f: seq<real>, reps: seq<nat>, snapshot: seq<real>, row: nat)
    requires RepsWithin(reps, |snapshot|) && row + 3 * |reps| <= |f|
    requires forall k | row <= k < row + 3 * |reps| :: f[k] == ForceEntry(reps, snapshot, k - row)
    ensures f[row..row + 3 * |reps|] == seq(3 * |reps|, k requires 0 <= k < 3 * |reps| => ForceEntry(reps, snapshot, k))
  {
    var b := 3 * |reps|;
    forall k | 0 <= k < b
      ensures f[row..row + b][k] == ForceEntry(reps, snapshot, k)
    {
      assert f[row..row + b][k] == f[row + k];
    }
  }

  /** Assembles snapshot snap into the rows that follow the first snap
      blocks. */
  method AssembleNext(amat: array2<real>, fsum: array<real>, ind: array<int>, ndup: seq<seq<nat>>,
                      fcSet: seq<seq<FcProperty>>, reps: seq<nat>, width: nat, disp: seq<seq<real>>,
                      force: seq<seq<real>>, snap: nat, row: nat) returns (next: nat)
    requires AssembledUpTo(amat, fsum, ndup, fcSet, reps, width, disp, force, snap, row)
    requires snap < |disp| && ind.Length == |ndup| + 1
    modifies amat, fsum, ind
    ensures next == row + 3 * |reps|
    ensures AssembledUpTo(amat, fsum, ndup, fcSet, reps, width, disp, force, snap + 1, next)
  {
    var b := 3 * |reps|;
    BlockFits(snap, |disp|, b);
    NextBlock(snap, b);
    var iparam;
    next, iparam := AssembleSnapshot(amat, fsum, ind, row, row, ndup, fcSet, reps, disp[snap], force[snap]);
    assert fsum[..row] == old(fsum[..row]);
    DesignStep(amat, ndup, fcSet, reps, width, disp, snap, row);
    ForceStep(fsum[..], reps, width, force, snap, row);
  }

  /** Assembles the ntran translated images of one displacement pattern,
      snapshots snap .. snap + ntran. */
  method AssembleTranslations(amat: array2<real>, fsum: array<real>, ind: array<int>, ndup: seq<seq<nat>>,
                              fcSet: seq<seq<FcProperty>>, reps: seq<nat>, width: nat, disp: seq<seq<real>>,
                              force: seq<seq<real>>, ntran: nat, snap: nat, row: nat) returns (snap': nat, row': nat)
    requires AssembledUpTo(amat, fsum, ndup, fcSet, reps, width, disp, force, snap, row)
    requires snap + ntran <= |disp| && ind.Length == |ndup| + 1
    modifies amat, fsum, ind
    ensures snap' == snap + ntran
    ensures AssembledUpTo(amat, fsum, ndup, fcSet, reps, width, disp, force, snap', row')
  {
    snap', row' := snap, row;
    var itran := 0;
    while itran < ntran
      invariant 0 <= itran <= ntran && snap' == snap + itran
      invariant AssembledUpTo(amat, fsum, ndup, fcSet, reps, width, disp, force, snap', row')
    {
      row' := AssembleNext(amat, fsum, ind, ndup, fcSet, reps, width, disp, force, snap', row');
      snap' := snap' + 1;
      itran := itran + 1;
    }
  }

  /** Every record's group index lies within the groups of its order. */
  predicate MothersInGroups(ndup: seq<seq<nat>>, fcSet: seq<seq<FcProperty>>) {
    && |ndup| == |fcSet|
    && forall o, m :: 0 <= o < |fcSet| && 0 <= m < |fcSet[o]| ==> fcSet[o][m].mother < |ndup[o]|
  }

  /** The per-order inputs of the constraint generation (the combinations
      of neighbour atoms and the direction assignments) fit their orders;
      those of order 0 are not used. */
  predicate GenerationInputs(ndup: seq<seq<nat>>, reps: seq<nat>, combos: seq<seq<seq<seq<nat>>>>, xyz: seq<seq<seq<nat>>>) {
    && |combos| == |ndup| && |xyz| == |ndup|
    && forall o :: 0 < o < |ndup| ==> HigherInputsFit(reps, combos[o], xyz[o], o)
  }

  /** The translational-invariance constraints of order o: none for an
      order without parameters. */
  function OrderSet(o: nat, ndup: seq<seq<nat>>, fcSet: seq<seq<FcProperty>>, reps: seq<nat>, natoms: nat,
                    combos: seq<seq<seq<seq<nat>>>>, xyz: seq<seq<seq<nat>>>,
                    inCutoff: seq<nat> -> bool, sortTail: seq<nat> -> seq<nat>): set<seq<real>>
    requires MothersInGroups(ndup, fcSet) && GenerationInputs(ndup, reps, combos, xyz) && o < |ndup|
  {
    if |ndup[o]| == 0 then {}
    else ConstraintSet(KeyLists(o, reps, combos[o], xyz[o], natoms, inCutoff, sortTail), IndexOf(fcSet[o]), |ndup[o]|)
  }

  /** The constraints of every order. */
  function TranslationSets(ndup: seq<seq<nat>>, fcSet: seq<seq<FcProperty>>, reps: seq<nat>, natoms: nat,
                           combos: seq<seq<seq<seq<nat>>>>, xyz: seq<seq<seq<nat>>>,
                           inCutoff: seq<nat> -> bool, sortTail: seq<nat> -> seq<nat>): (r: seq<set<seq<real>>>)
    requires MothersInGroups(ndup, fcSet) && GenerationInputs(ndup, reps, combos, xyz)
    ensures |r| == |ndup|
  {
    seq(|ndup|, o requires 0 <= o < |ndup| => OrderSet(o, ndup, fcSet, reps, natoms, combos, xyz, inCutoff, sortTail))
  }

  /** One of the first n orders has parameters and repeats an index tuple. */
  predicate DuplicateBefore(ndup: seq<seq<nat>>, fcSet: seq<seq<FcProperty>>, n: nat)
    requires n <= |ndup| == |fcSet|
  {
    exists o :: 0 <= o < n && |ndup[o]| > 0 && HasDuplicate(fcSet[o])
  }

  /** Every vector of every order's constraint set has one entry per group
      of the order and is not negligible. */
  lemma TranslationSetsShape(ndup: seq<seq<nat>>, fcSet: seq<seq<FcProperty>>, reps: seq<nat>, natoms: nat,
                             combos: seq<seq<seq<seq<nat>>>>, xyz: seq<seq<seq<nat>>>,
                             inCutoff: seq<nat> -> bool, sortTail: seq<nat> -> seq<nat>, o: nat, v: seq<real>)
    requires MothersInGroups(ndup, fcSet) && GenerationInputs(ndup, reps, combos, xyz) && o < |ndup|
    requires v in TranslationSets(ndup, fcSet, reps, natoms, combos, xyz, inCutoff, sortTail)[o]
    ensures |v| == |ndup[o]| && !AllZero(v)
  {
    GeneratedShape(o, fcSet[o], |ndup[o]|, reps, natoms, combos[o], xyz[o], inCutoff, sortTail, v);
  }

  datatype Option<T> = None | Some(value: T)

  function Min(a: nat, b: nat): nat {
    if a < b then a else b
  }

  /** A least-squares problem for the solver: an m x n matrix in column-major
      order and a right-hand side of length m. */
  datatype LstsqProblem = LstsqProblem(m: nat, n: nat, a: seq<real>, b: seq<real>)

  /** The solver's answer: the numerical rank, and the vector it leaves in
      place of the right-hand side (the solution in its first n entries,
      the residual components after them). */
  datatype LstsqAnswer = LstsqAnswer(rank: nat, b: seq<real>)

  /** An equality-constrained least-squares problem: minimise |b - A x|
      subject to C x = d, with A m x n and C p x n in column-major order. */
  datatype GlseProblem = GlseProblem(m: nat, n: nat, p: nat, a: seq<real>, c: seq<real>, b: seq<real>, d: seq<real>)

  /** The vector left in place of b (its entries n - p .. m are the residual
      components) and the solution x. */
  datatype GlseAnswer = GlseAnswer(b: seq<real>, x: seq<real>)

  ghost predicate LstsqShape(lstsq: LstsqProblem -> LstsqAnswer) {
    forall q :: |lstsq(q).b| == |q.b|
  }

  ghost predicate GlseShape(glse: GlseProblem -> GlseAnswer) {
    forall q :: |glse(q).b| == |q.b| && |glse(q).x| == q.n
  }

  /** The singular-value routine returns at least min(m, n) values. */
  ghost predicate SvdShape(singular: (nat, nat, seq<real>) -> seq<real>) {
    forall m, n, a :: |singular(m, n, a)| >= Min(m, n)
  }

  /** The rank-revealing reduction of an order's constraints (n entries
      each) keeps a basis taken from the constraints themselves: no more
      vectors than there are constraints, nor than there are entries. */
  ghost predicate ReduceShape(reduce: (set<seq<real>>, nat) -> seq<seq<real>>) {
    forall s, n :: && |reduce(s, n)| <= |s| && |reduce(s, n)| <= n
                   && forall k :: 0 <= k < |reduce(s, n)| ==> reduce(s, n)[k] in s
  }

  /** The reduced constraints of every order. */
  function Reduced(sets: seq<set<seq<real>>>, ndup: seq<seq<nat>>, reduce: (set<seq<real>>, nat) -> seq<seq<real>>)
    : (r: seq<seq<seq<real>>>)
    requires |sets| == |ndup|
    ensures |r| == |ndup|
  {
    seq(|ndup|, o requires 0 <= o < |ndup| => reduce(sets[o], |ndup[o]|))
  }

  /** The reduced constraints have one entry per group of their order, and
      each order has at most as many as it has candidates and groups. */
  lemma ReducedShape(ndup: seq<seq<nat>>, fcSet: seq<seq<FcProperty>>, reps: seq<nat>, natoms: nat,
                     combos: seq<seq<seq<seq<nat>>>>, xyz: seq<seq<seq<nat>>>,
                     inCutoff: seq<nat> -> bool, sortTail: seq<nat> -> seq<nat>,
                     reduce: (set<seq<real>>, nat) -> seq<seq<real>>)
    requires MothersInGroups(ndup, fcSet) && GenerationInputs(ndup, reps, combos, xyz) && ReduceShape(reduce)
    ensures var sets := TranslationSets(ndup, fcSet, reps, natoms, combos, xyz, inCutoff, sortTail);
            var reduced := Reduced(sets, ndup, reduce);
            && (forall o, k :: 0 <= o < |reduced| && 0 <= k < |reduced[o]| ==> |reduced[o][k]| == |ndup[o]|)
            && (forall o :: 0 <= o < |reduced| ==> |reduced[o]| <= |sets[o]| && |reduced[o]| <= |ndup[o]|)
  {
    var sets := TranslationSets(ndup, fcSet, reps, natoms, combos, xyz, inCutoff, sortTail);
    var reduced := Reduced(sets, ndup, reduce);
    forall o, k | 0 <= o < |reduced| && 0 <= k < |reduced[o]|
      ensures |reduced[o][k]| == |ndup[o]|
    {
      assert reduced[o][k] in sets[o];
      TranslationSetsShape(ndup, fcSet, reps, natoms, combos, xyz, inCutoff, sortTail, o, reduced[o][k]);
    }
  }

  /** With every order's rank at most its number of groups, there are at
      most N constraint rows, so the residual range N - P .. M of the
      constrained solver starts at a valid index. */
  lemma ConstraintsAtMostParams(ranks: seq<nat>, nparam: seq<nat>, fixHarmonic: bool)
    requires |ranks| == |nparam| && (fixHarmonic ==> |nparam| >= 1)
    requires forall o :: 0 <= o < |ranks| ==> ranks[o] <= nparam[o]
    ensures RowTotal(ranks, nparam, fixHarmonic) <= Sum(nparam)
  {
    RowsWithinAllocation(ranks, nparam, nparam, fixHarmonic);
    if fixHarmonic {
      SumFirst(nparam);
    }
  }

  /** The constrained problem handed to the solver: the design matrix a
      and the constraint rows in column-major order, the forces f and the
      constraint right-hand side. */
  function ConstrainedProblem(a: seq<seq<real>>, f: seq<real>, ndup: seq<seq<nat>>, fixHarmonic: bool,
                              file: ReferenceFile, reduced: seq<seq<seq<real>>>): GlseProblem
    requires |reduced| == |ndup| && (fixHarmonic ==> |ndup| >= 1)
    requires fixHarmonic ==> file.WithMarker? && file.count == |ndup[0]| && |file.values| >= file.count
  {
    var nparam := GroupCounts(ndup);
    var n := NumParams(ndup);
    var p := RowTotal(Ranks(reduced), nparam, fixHarmonic);
    GlseProblem(|a|, n, p, ColumnMajorSeq(a, |a|, n), ColumnMajorSeq(ConstraintRows(reduced, nparam, fixHarmonic, n), p, n),
                f, ConstraintRhs(nparam, fixHarmonic, ReferenceValues(file), p))
  }

  /** The sum of squares of the entries from lo on; zero when lo is past
      the end. */
  function TailSquares(b: seq<real>, lo: int): (r: real)
    ensures r >= 0.0
    ensures 0 <= lo <= |b| ==> r == SumSquares(b[lo..])
  {
    if 0 <= lo <= |b| then SumSquares(b[lo..]) else 0.0
  }

  /** The rank `rank` reports for a buffer it is handed as a rows x n
      column-major matrix: the number of the first min(rows, n) singular
      values that exceed Eps12. */
  ghost function BufferRank(singular: (nat, nat, seq<real>) -> seq<real>, buf: seq<real>, rows: nat, n: nat): nat
    requires SvdShape(singular)
  {
    CountAbove(singular(rows, n, buf)[..Min(rows, n)], Eps12)
  }

  /** The numerical rank of a rows x n matrix: the rank reported for its
      column-major buffer. */
  ghost function NumericalRank(singular: (nat, nat, seq<real>) -> seq<real>, mat: seq<seq<real>>, rows: nat, n: nat): nat
    requires SvdShape(singular)
  {
    BufferRank(singular, ColumnMajorSeq(mat, rows, n), rows, n)
  }

  /** The outcome of the constrained solver on q: the vector after holds
      the solution x followed by the solver's entries from n on; the
      report holds the rank reported for the rank-check buffer of a and c
      (A's column-major block followed by C's), the sum of squares of the
      forces and the residual over the solver's entries n - p .. m. */
  ghost predicate ConstrainedSolution(q: GlseProblem, a: seq<seq<real>>, c: seq<seq<real>>, singular: (nat, nat, seq<real>) -> seq<real>,
                                      glse: GlseProblem -> GlseAnswer, report: Report, after: seq<real>)
    requires SvdShape(singular) && GlseShape(glse)
  {
    var ans := glse(q);
    && q.n <= |q.b|
    && after == ans.x + ans.b[q.n..]
    && report.rank == BufferRank(singular, RankBuffer(a, c, q.m, q.p, q.n), q.m + q.p, q.n)
    && report.fSquare == SumSquares(q.b)
    && report.residual == Some(TailSquares(ans.b, q.n - q.p))
  }

  lemma ConstrainedSolutionIntro(q: GlseProblem, a: seq<seq<real>>, c: seq<seq<real>>, singular: (nat, nat, seq<real>) -> seq<real>,
                                  glse: GlseProblem -> GlseAnswer, rank: nat, fSquare: real, residual: real, after: seq<real>)
    requires SvdShape(singular) && GlseShape(glse) && q.n <= |q.b| == q.m
    requires rank == BufferRank(singular, RankBuffer(a, c, q.m, q.p, q.n), q.m + q.p, q.n)
    requires fSquare == SumSquares(q.b)
    requires residual == TailSquares(glse(q).b, q.n - q.p)
    requires after == glse(q).x + glse(q).b[q.n..]
    ensures ConstrainedSolution(q, a, c, singular, glse, Report(rank, fSquare, Some(residual)), after)
  {
  }

  /** What a fit reports: the numerical rank, the sum of squares of the
      forces and the residual sum of squares (absent when the
      unconstrained system is rank-deficient). */
  datatype Report = Report(rank: nat, fSquare: real, residual: Option<real>)

  datatype FitError = DuplicateInteraction | ConstraintFailure(reason: ConstraintError)

  datatype FitOutcome = Fitted(report: Report) | Failed(error: FitError)

  /** Overwrites dst with v. */
  method Store(dst: array<real>, v: seq<real>)
    requires |v| == dst.Length
    modifies dst
    ensures dst[..] == v
  {
    var i := 0;
    while i < |v|
      invariant 0 <= i <= |v| && dst[..i] == v[..i]
    {
      dst[i] := v[i];
      i := i + 1;
    }
  }

  /** Overwrites the first |v| entries of dst with v. */
  method StorePrefix(dst: array<real>, v: seq<real>)
    requires |v| <= dst.Length
    modifies dst
    ensures dst[..] == v + old(dst[|v|..])
  {
    var i := 0;
    while i < |v|
      invariant 0 <= i <= |v| && dst[..i] == v[..i] && dst[|v|..] == old(dst[|v|..])
    {
      dst[i] := v[i];
      i := i + 1;
    }
    assert dst[..] == dst[..|v|] + dst[|v|..];
  }

  /** The number of entries each order's candidate set holds. */
  function Counts(sets: seq<set<seq<real>>>): (r: seq<nat>)
    ensures |r| == |sets| && forall o :: 0 <= o < |sets| ==> r[o] == |sets[o]|
  {
    seq(|sets|, o requires 0 <= o < |sets| => |sets[o]|)
  }

  /** Every vector of order o has one entry per group of the order. */
  predicate SetsShaped(sets: seq<set<seq<real>>>, ndup: seq<seq<nat>>) {
    |sets| == |ndup| && forall o, v :: 0 <= o < |sets| && v in sets[o] ==> |v| == |ndup[o]|
  }

  /** Allocates Pmax rows for the constraint system (the candidate count of
      each order, the harmonic one replaced by the number of harmonic
      groups when those are fixed) and builds the P reduced rows into
      them, or stops with the reason the harmonic reference is unusable. */
  method BuildSystem(sets: seq<set<seq<real>>>, ndup: seq<seq<nat>>, fixHarmonic: bool, file: ReferenceFile,
                     reduce: (set<seq<real>>, nat) -> seq<seq<real>>, n: nat)
    returns (built: Outcome, constMat: array2<real>, constRhs: array<real>)
    requires SetsShaped(sets, ndup) && ReduceShape(reduce) && n == NumParams(ndup)
    requires fixHarmonic ==> |ndup| >= 1
    requires file.WithMarker? ==> |file.values| >= file.count
    ensures fresh(constMat) && fresh(constRhs) && constMat.Length1 == n
    ensures constMat.Length0 == constRhs.Length == RowTotal(Counts(sets), GroupCounts(ndup), fixHarmonic)
    ensures built.Rejected? <==> fixHarmonic && !(file.WithMarker? && file.count == |ndup[0]|)
    ensures fixHarmonic && file.CannotOpen? ==> built == Rejected(ReferenceUnreadable)
    ensures fixHarmonic && file.WithoutMarker? ==> built == Rejected(ReferenceMarkerMissing)
    ensures fixHarmonic && file.WithMarker? && file.count != |ndup[0]| ==> built == Rejected(ReferenceCountMismatch)
    ensures built.Built? ==>
              var reduced := Reduced(sets, ndup, reduce);
              && built.rows == RowTotal(Ranks(reduced), GroupCounts(ndup), fixHarmonic) <= n
              && Holds(ConstraintRows(reduced, GroupCounts(ndup), fixHarmonic, n), constMat, built.rows, n)
              && constRhs[..built.rows] == ConstraintRhs(GroupCounts(ndup), fixHarmonic, ReferenceValues(file), built.rows)
  {
    var nparam := GroupCounts(ndup);
    var pmax := CountRows(Counts(sets), nparam, fixHarmonic);
    constMat := new real[pmax, n];
    constRhs := new real[pmax];
    var reduced := Reduced(sets, ndup, reduce);
    assert forall o, k :: 0 <= o < |reduced| && 0 <= k < |reduced[o]| ==> reduced[o][k] in sets[o];
    RowsWithinAllocation(Ranks(reduced), Counts(sets), nparam, fixHarmonic);
    ConstraintsAtMostParams(Ranks(reduced), nparam, fixHarmonic);
    NumParamsIsSum(ndup);
    built := BuildConstraints(constMat, constRhs, reduced, nparam, fixHarmonic, file);
  }

  /** The rank check before the constrained solve, as written: the buffer
      holds A's column-major block followed by that of the first p rows of
      C, and is handed to the singular-value routine as an (M + P) x N
      matrix. */
  method StackedRank(amat: array2<real>, constMat: array2<real>, p: nat, singular: (nat, nat, seq<real>) -> seq<real>,
                     ghost a: seq<seq<real>>, ghost c: seq<seq<real>>) returns (rank: nat)
    requires SvdShape(singular)
    requires Holds(a, amat, amat.Length0, amat.Length1) && Holds(c, constMat, p, amat.Length1)
    ensures var m, n := amat.Length0, amat.Length1;
            rank == BufferRank(singular, RankBuffer(a, c, m, p, n), m + p, n)
    ensures rank <= amat.Length1
  {
    var m, n := amat.Length0, amat.Length1;
    var buf := StackForRank(amat, constMat, m, p, a, c);
    rank := RankOfBuffer(buf, m + p, n, singular);
  }

  /** The rank check as intended: the buffer is the column-major form of A
      stacked over the first p rows of C, so the reported rank is the
      numerical rank of [A; C]. */
  method IntendedStackedRank(amat: array2<real>, constMat: array2<real>, p: nat, singular: (nat, nat, seq<real>) -> seq<real>,
                             ghost a: seq<seq<real>>, ghost c: seq<seq<real>>) returns (rank: nat)
    requires SvdShape(singular)
    requires Holds(a, amat, amat.Length0, amat.Length1) && Holds(c, constMat, p, amat.Length1)
    ensures var m, n := amat.Length0, amat.Length1;
            rank == NumericalRank(singular, a + c, m + p, n)
    ensures rank <= amat.Length1
  {
    var m, n := amat.Length0, amat.Length1;
    var buf := StackColumnMajor(amat, constMat, m, p, a, c);
    rank := RankOfBuffer(buf, m + p, n, singular);
  }

  /** Where the rank-check buffer is the column-major form of [A; C]
      (a single column, or no rows in A or in C), the rank the check
      reports is the numerical rank of the stacked system. */
  lemma ReportedRankIsIntended(singular: (nat, nat, seq<real>) -> seq<real>, a: seq<seq<real>>, c: seq<seq<real>>,
                               m: nat, p: nat, n: nat)
    requires SvdShape(singular) && IsMatrix(a, m, n) && IsMatrix(c, p, n)
    requires n <= 1 || m == 0 || p == 0
    ensures BufferRank(singular, RankBuffer(a, c, m, p, n), m + p, n) == NumericalRank(singular, a + c, m + p, n)
  {
    RankBufferAgrees(a, c, m, p, n);
  }

  /** Takes the singular values of buf as a rows x n matrix and counts those
      above Eps12 among the first min(rows, n). */
  method RankOfBuffer(buf: array<real>, rows: nat, n: nat, singular: (nat, nat, seq<real>) -> seq<real>) returns (rank: nat)
    requires SvdShape(singular)
    ensures rank == BufferRank(singular, buf[..], rows, n) && rank <= n
  {
    var sv := singular(rows, n, buf[..]);
    var values := new real[|sv|](i requires 0 <= i < |sv| => sv[i]);
    assert values[..] == sv;
    rank := RankFromSingularValues(values, Min(rows, n));
  }

  /** Hands the column-major copies of A and of the first p rows of C, the
      right-hand side fsum and the first p entries of constRhs to the
      constrained solver; its b replaces fsum. */
  method SolveGlse(amat: array2<real>, constMat: array2<real>, fsum: array<real>, constRhs: array<real>, p: nat,
                   glse: GlseProblem -> GlseAnswer, ghost a: seq<seq<real>>, ghost c: seq<seq<real>>) returns (ans: GlseAnswer)
    requires GlseShape(glse)
    requires Holds(a, amat, amat.Length0, amat.Length1) && fsum.Length == amat.Length0
    requires Holds(c, constMat, p, amat.Length1) && constMat.Length1 == amat.Length1
    requires p <= constRhs.Length && constRhs != fsum
    modifies fsum
    ensures ans == glse(GlseProblem(amat.Length0, amat.Length1, p, ColumnMajorSeq(a, amat.Length0, amat.Length1),
                                    ColumnMajorSeq(c, p, amat.Length1), old(fsum[..]), constRhs[..p]))
    ensures fsum[..] == ans.b && |ans.x| == amat.Length1
  {
    var m, n := amat.Length0, amat.Length1;
    var amatMod := ColumnMajor(amat, m, a);
    var cmatMod := ColumnMajor(constMat, p, c);
    ans := glse(GlseProblem(m, n, p, amatMod[..], cmatMod[..], fsum[..], constRhs[..p]));
    Store(fsum, ans.b);
  }

  /** The number of parameters N: the group counts of every order added up. */
  method CountParams(ndup: seq<seq<nat>>) returns (n: nat)
    ensures n == NumParams(ndup)
  {
    n := 0;
    for i := 0 to |ndup|
      invariant n == NumParams(ndup[..i])
    {
      NumParamsPrefix(ndup, i);
      n := n + |ndup[i]|;
    }
    assert ndup[..|ndup|] == ndup;
  }

  /** The fitting state: the design matrix and right-hand side of the
      current run, the constraint candidates of each order and the fitted
      parameters. */
  class Fitting {
    /** The design matrix A, M x N. */
    var amat: array2<real>
    /** The right-hand side; the solver overwrites it with its solution. */
    var fsum: array<real>
    /** The translational-invariance constraints of each order. */
    var constTranslation: seq<set<seq<real>>>
    /** The fitted parameters, one per group. */
    var params: seq<real>
    /** 0: no constraints; 1: translational invariance; 2: translational
        invariance with the harmonic parameters fixed to reference values. */
    const constraint: int

    constructor (constraint: int)
      ensures this.constraint == constraint && constTranslation == [] && params == []
    {
      amat := new real[0, 0];
      fsum := new real[0];
      constTranslation := [];
      params := [];
      this.constraint := constraint;
    }

    /** fitmain: allocates the M x N system (N parameters, M = 3 natmin
        rows per snapshot), assembles it, fits with or without constraints
        and keeps the first N entries of the solver's output as params. A
        constrained fit that stops leaves params unset. */
    method FitMain(ndata: nat, ntran: nat, ndup: seq<seq<nat>>, fcSet: seq<seq<FcProperty>>, reps: seq<nat>,
                   width: nat, disp: seq<seq<real>>, force: seq<seq<real>>, natoms: nat,
                   combos: seq<seq<seq<seq<nat>>>>, xyz: seq<seq<seq<nat>>>,
                   inCutoff: seq<nat> -> bool, sortTail: seq<nat> -> seq<nat>, file: ReferenceFile,
                   reduce: (set<seq<real>>, nat) -> seq<seq<real>>, lstsq: LstsqProblem -> LstsqAnswer,
                   singular: (nat, nat, seq<real>) -> seq<real>, glse: GlseProblem -> GlseAnswer)
      returns (outcome: FitOutcome)
      requires AssemblyInputs(ndup, fcSet, reps, width, disp, force) && |disp| == ndata * ntran
      requires NumParams(ndup) <= |disp| * (3 * |reps|)
      requires constraint == 0 ==> LstsqShape(lstsq)
      requires constraint != 0 ==> && MothersInGroups(ndup, fcSet) && GenerationInputs(ndup, reps, combos, xyz)
                                   && ReduceShape(reduce) && SvdShape(singular) && GlseShape(glse)
                                   && (constraint == 2 ==> |ndup| >= 1)
                                   && (file.WithMarker? ==> |file.values| >= file.count)
      modifies this
      ensures var a, f := DesignMatrix(ndup, fcSet, reps, width, disp), ForceVector(reps, width, force);
              var m, n := |disp| * (3 * |reps|), NumParams(ndup);
              constraint == 0 ==> outcome.Fitted? && params == lstsq(LstsqProblem(m, n, ColumnMajorSeq(a, m, n), f)).b[..n]
      ensures constraint != 0 ==>
                && (outcome == Failed(DuplicateInteraction) <==> DuplicateBefore(ndup, fcSet, |ndup|))
                && (!DuplicateBefore(ndup, fcSet, |ndup|) ==>
                      (outcome.Failed? <==> constraint == 2 && !(file.WithMarker? && file.count == |ndup[0]|)))
      ensures constraint != 0 && outcome.Fitted? ==>
                var a, f := DesignMatrix(ndup, fcSet, reps, width, disp), ForceVector(reps, width, force);
                var sets := TranslationSets(ndup, fcSet, reps, natoms, combos, xyz, inCutoff, sortTail);
                params == glse(ConstrainedProblem(a, f, ndup, constraint == 2, file, Reduced(sets, ndup, reduce))).x
      ensures outcome.Failed? ==> params == old(params)
    {
      var nParams := AllocateAndAssemble(ndata, ntran, ndup, fcSet, reps, width, disp, force);
      ghost var a := DesignMatrix(ndup, fcSet, reps, width, disp);
      if constraint == 0 {
        var report := FitWithoutConstraints(lstsq, a);
        outcome := Fitted(report);
      } else {
        ghost var before := params;
        outcome := FitWithConstraints(ndup, fcSet, reps, natoms, combos, xyz, inCutoff, sortTail, file,
                                      reduce, singular, glse, a);
        if outcome.Failed? {
          assert params == before;
          return;
        }
      }
      var copied := CopyPrefix(fsum, nParams);
      params := copied[..];
    }

    /** The first half of fitmain: N, M, a fresh M x N matrix and M-entry
        right-hand side, filled by calc_matrix_elements. */
    method AllocateAndAssemble(ndata: nat, ntran: nat, ndup: seq<seq<nat>>, fcSet: seq<seq<FcProperty>>,
                               reps: seq<nat>, width: nat, disp: seq<seq<real>>, force: seq<seq<real>>)
      returns (nParams: nat)
      requires AssemblyInputs(ndup, fcSet, reps, width, disp, force) && |disp| == ndata * ntran
      modifies this
      ensures fresh(amat) && fresh(fsum) && params == old(params) && constTranslation == old(constTranslation)
      ensures nParams == NumParams(ndup) == amat.Length1 && fsum.Length == amat.Length0 == |disp| * (3 * |reps|)
      ensures Holds(DesignMatrix(ndup, fcSet, reps, width, disp), amat, amat.Length0, amat.Length1)
      ensures fsum[..] == ForceVector(reps, width, force)
    {
      nParams := CountParams(ndup);
      var mRows := 3 * |reps| * ndata * ntran;
      assert mRows == |disp| * (3 * |reps|);
      amat := new real[mRows, nParams];
      fsum := new real[mRows];
      CalcMatrixElements(ndata, ntran, ndup, fcSet, reps, width, disp, force);
    }

    /** Fills A and the right-hand side from the snapshots, read in the
        order data-major, translation-minor: afterwards A is the design
        matrix and fsum the force vector of the snapshots. */
    method CalcMatrixElements(ndata: nat, ntran: nat, ndup: seq<seq<nat>>, fcSet: seq<seq<FcProperty>>,
                              reps: seq<nat>, width: nat, disp: seq<seq<real>>, force: seq<seq<real>>)
      requires AssemblyInputs(ndup, fcSet, reps, width, disp, force) && |disp| == ndata * ntran
      requires fsum.Length == amat.Length0 == |disp| * (3 * |reps|) && amat.Length1 == NumParams(ndup)
      modifies amat, fsum
      ensures forall k, p | 0 <= k < amat.Length0 && 0 <= p < amat.Length1 ::
                amat[k, p] == DesignMatrix(ndup, fcSet, reps, width, disp)[k][p]
      ensures fsum[..] == ForceVector(reps, width, force)
    {
      ClearSystem(amat, fsum);
      var ind := new int[|ndup| + 1];
      var row: nat := 0;
      var snap: nat := 0;
      assert fsum[..0] == [] && force[..0] == [];
      var data := 0;
      while data < ndata
        invariant 0 <= data <= ndata && snap == data * ntran
        invariant AssembledUpTo(amat, fsum, ndup, fcSet, reps, width, disp, force, snap, row)
      {
        BlockFits(data, ndata, ntran);
        snap, row := AssembleTranslations(amat, fsum, ind, ndup, fcSet, reps, width, disp, force, ntran, snap, row);
        NextBlock(data, ntran);
        data := data + 1;
      }
      assert disp[..snap] == disp && force[..snap] == force;
      assert fsum[..] == fsum[..row];
    }

    /** Generates the translational-invariance constraints of every order
        into constTranslation; stops (false) at the first order with
        parameters whose records repeat an index tuple. */
    method TranslationalInvariance(ndup: seq<seq<nat>>, fcSet: seq<seq<FcProperty>>, reps: seq<nat>, natoms: nat,
                                   combos: seq<seq<seq<seq<nat>>>>, xyz: seq<seq<seq<nat>>>,
                                   inCutoff: seq<nat> -> bool, sortTail: seq<nat> -> seq<nat>) returns (ok: bool)
      requires MothersInGroups(ndup, fcSet) && GenerationInputs(ndup, reps, combos, xyz)
      modifies this
      ensures amat == old(amat) && fsum == old(fsum) && params == old(params)
      ensures ok <==> !DuplicateBefore(ndup, fcSet, |ndup|)
      ensures ok ==> constTranslation == TranslationSets(ndup, fcSet, reps, natoms, combos, xyz, inCutoff, sortTail)
    {
      ghost var sets := TranslationSets(ndup, fcSet, reps, natoms, combos, xyz, inCutoff, sortTail);
      constTranslation := [];
      var order := 0;
      while order < |ndup|
        invariant 0 <= order <= |ndup|
        invariant amat == old(amat) && fsum == old(fsum) && params == old(params)
        invariant !DuplicateBefore(ndup, fcSet, order)
        invariant constTranslation == sets[..order]
      {
        var nparams := |ndup[order]|;
        var generated := OrderConstraints(order, fcSet[order], nparams, reps, natoms, combos[order], xyz[order],
                                          inCutoff, sortTail);
        if generated.DuplicateFound? {
          return false;
        }
        assert generated.constraints == sets[order];
        constTranslation := constTranslation + [generated.constraints];
        assert sets[..order + 1] == sets[..order] + [sets[order]];
        order := order + 1;
      }
      assert sets[..order] == sets;
      return true;
    }

    /** The unconstrained fit: the column-major copy of A (whose entries a
        lists) and fsum go to the least-squares solver, whose answer
        replaces fsum; the residual is the sum of squares of the entries N
        .. M, reported only when A has full column rank. */
    method FitWithoutConstraints(lstsq: LstsqProblem -> LstsqAnswer, ghost a: seq<seq<real>>) returns (report: Report)
      requires LstsqShape(lstsq)
      requires Holds(a, amat, amat.Length0, amat.Length1) && fsum.Length == amat.Length0
      requires amat.Length1 <= amat.Length0
      modifies fsum
      ensures var ans := lstsq(LstsqProblem(amat.Length0, amat.Length1, ColumnMajorSeq(a, amat.Length0, amat.Length1), old(fsum[..])));
              && fsum[..] == ans.b
              && report.rank == ans.rank
              && report.fSquare == SumSquares(old(fsum[..]))
              && (report.residual.Some? <==> ans.rank == amat.Length1)
              && (report.residual.Some? ==> report.residual.value == SumSquares(ans.b[amat.Length1..]))
    {
      var m, n := amat.Length0, amat.Length1;
      var amatMod := ColumnMajor(amat, m, a);
      var fSquare := SquareSum(fsum, 0, m);
      assert fsum[0..m] == fsum[..];
      var ans := lstsq(LstsqProblem(m, n, amatMod[..], fsum[..]));
      Store(fsum, ans.b);
      var residual := None;
      if ans.rank == n {
        var r := SquareSum(fsum, n, m);
        assert fsum[n..m] == ans.b[n..];
        residual := Some(r);
      }
      report := Report(ans.rank, fSquare, residual);
    }

    /** The constrained fit: generates the constraints, builds the
        constraint system and solves. Stops on a repeated index tuple or an
        unusable harmonic reference. */
    method FitWithConstraints(ndup: seq<seq<nat>>, fcSet: seq<seq<FcProperty>>, reps: seq<nat>, natoms: nat,
                              combos: seq<seq<seq<seq<nat>>>>, xyz: seq<seq<seq<nat>>>,
                              inCutoff: seq<nat> -> bool, sortTail: seq<nat> -> seq<nat>, file: ReferenceFile,
                              reduce: (set<seq<real>>, nat) -> seq<seq<real>>,
                              singular: (nat, nat, seq<real>) -> seq<real>, glse: GlseProblem -> GlseAnswer,
                              ghost a: seq<seq<real>>) returns (outcome: FitOutcome)
      requires MothersInGroups(ndup, fcSet) && GenerationInputs(ndup, reps, combos, xyz)
      requires ReduceShape(reduce) && SvdShape(singular) && GlseShape(glse)
      requires constraint == 2 ==> |ndup| >= 1
      requires file.WithMarker? ==> |file.values| >= file.count
      requires Holds(a, amat, amat.Length0, amat.Length1) && fsum.Length == amat.Length0
      requires amat.Length1 == NumParams(ndup) <= amat.Length0
      modifies this, fsum
      ensures amat == old(amat) && fsum == old(fsum) && params == old(params)
      ensures outcome == Failed(DuplicateInteraction) <==> DuplicateBefore(ndup, fcSet, |ndup|)
      ensures !DuplicateBefore(ndup, fcSet, |ndup|) ==>
                (outcome.Failed? <==> constraint == 2 && !(file.WithMarker? && file.count == |ndup[0]|))
      ensures !DuplicateBefore(ndup, fcSet, |ndup|) && constraint == 2 ==>
                && (file.CannotOpen? ==> outcome == Failed(ConstraintFailure(ReferenceUnreadable)))
                && (file.WithoutMarker? ==> outcome == Failed(ConstraintFailure(ReferenceMarkerMissing)))
                && (file.WithMarker? && file.count != |ndup[0]| ==> outcome == Failed(ConstraintFailure(ReferenceCountMismatch)))
      ensures outcome.Fitted? ==>
                var sets := TranslationSets(ndup, fcSet, reps, natoms, combos, xyz, inCutoff, sortTail);
                var reduced := Reduced(sets, ndup, reduce);
                var fix := constraint == 2;
                var q := ConstrainedProblem(a, old(fsum[..]), ndup, fix, file, reduced);
                && constTranslation == sets
                && q.p <= q.n
                && ConstrainedSolution(q, a, ConstraintRows(reduced, GroupCounts(ndup), fix, q.n), singular, glse,
                                       outcome.report, fsum[..])
    {
      var ok := TranslationalInvariance(ndup, fcSet, reps, natoms, combos, xyz, inCutoff, sortTail);
      if !ok {
        return Failed(DuplicateInteraction);
      }
      ghost var f0 := fsum[..];
      var fix := constraint == 2;
      var sets := constTranslation;
      forall o, v | 0 <= o < |sets| && v in sets[o]
        ensures |v| == |ndup[o]|
      {
        TranslationSetsShape(ndup, fcSet, reps, natoms, combos, xyz, inCutoff, sortTail, o, v);
      }
      var built, constMat, constRhs := BuildSystem(sets, ndup, fix, file, reduce, amat.Length1);
      if built.Rejected? {
        return Failed(ConstraintFailure(built.reason));
      }
      var m, n, p := amat.Length0, amat.Length1, built.rows;
      ghost var c := ConstraintRows(Reduced(sets, ndup, reduce), GroupCounts(ndup), fix, n);
      var report := SolveConstrained(constMat, constRhs, p, singular, glse, a, c);
      ghost var q := ConstrainedProblem(a, f0, ndup, fix, file, Reduced(sets, ndup, reduce));
      assert q == GlseProblem(m, n, p, ColumnMajorSeq(a, m, n), ColumnMajorSeq(c, p, n), f0, constRhs[..p]);
      return Fitted(report);
    }

    /** Solves the constrained problem, takes the residual over the solver's
        entries N - P .. M and leaves the solution in the first N entries of
        fsum. */
    method SolveAndStore(constMat: array2<real>, constRhs: array<real>, p: nat, glse: GlseProblem -> GlseAnswer,
                         ghost a: seq<seq<real>>, ghost c: seq<seq<real>>) returns (residual: real)
      requires GlseShape(glse)
      requires Holds(a, amat, amat.Length0, amat.Length1) && fsum.Length == amat.Length0
      requires p <= amat.Length1 <= amat.Length0
      requires Holds(c, constMat, p, amat.Length1) && constMat.Length1 == amat.Length1
      requires p <= constRhs.Length && constRhs != fsum
      modifies fsum
      ensures var m, n := amat.Length0, amat.Length1;
              var ans := glse(GlseProblem(m, n, p, ColumnMajorSeq(a, m, n), ColumnMajorSeq(c, p, n), old(fsum[..]), constRhs[..p]));
              && residual == TailSquares(ans.b, n - p)
              && fsum[..] == ans.x + ans.b[n..]
    {
      var m, n := amat.Length0, amat.Length1;
      var ans := SolveGlse(amat, constMat, fsum, constRhs, p, glse, a, c);
      residual := 0.0;
      if n - p < m {
        residual := SquareSum(fsum, n - p, m);
        assert fsum[n - p..m] == ans.b[n - p..];
      }
      StorePrefix(fsum, ans.x);
    }

    /** Runs the rank check on A and C as written, then solves the constrained
        problem for the P rows of C held in constMat: fsum receives the
        solution in its first N entries, the residual is the sum of squares
        of the solver's entries N - P .. M. */
    method SolveConstrained(constMat: array2<real>, constRhs: array<real>, p: nat,
                            singular: (nat, nat, seq<real>) -> seq<real>, glse: GlseProblem -> GlseAnswer,
                            ghost a: seq<seq<real>>, ghost c: seq<seq<real>>) returns (report: Report)
      requires SvdShape(singular) && GlseShape(glse)
      requires Holds(a, amat, amat.Length0, amat.Length1) && fsum.Length == amat.Length0
      requires p <= amat.Length1 <= amat.Length0
      requires Holds(c, constMat, p, amat.Length1) && constMat.Length1 == amat.Length1
      requires p <= constRhs.Length && constRhs != fsum
      modifies fsum
      ensures var m, n := amat.Length0, amat.Length1;
              ConstrainedSolution(GlseProblem(m, n, p, ColumnMajorSeq(a, m, n), ColumnMajorSeq(c, p, n), old(fsum[..]), constRhs[..p]),
                                  a, c, singular, glse, report, fsum[..])
    {
      var m, n := amat.Length0, amat.Length1;
      ghost var q := GlseProblem(m, n, p, ColumnMajorSeq(a, m, n), ColumnMajorSeq(c, p, n), fsum[..], constRhs[..p]);
      var nrank := StackedRank(amat, constMat, p, singular, a, c);
      var fSquare := SquareSum(fsum, 0, m);
      assert fsum[0..m] == fsum[..];
      var residual := SolveAndStore(constMat, constRhs, p, glse, a, c);
      ConstrainedSolutionIntro(q, a, c, singular, glse, nrank, fSquare, residual, fsum[..]);
      report := Report(nrank, fSquare, Some(residual));
    }
  }
}
