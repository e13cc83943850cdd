/** Translational-invariance constraints on the force constants.

    For every order the term records are indexed by their index tuple
    (a repeated tuple is fatal). Then, for every representative atom and
    every choice of Cartesian directions, the coefficients of the records
    reached by letting the last atom run over all atoms are summed per
    parameter: the sum must vanish under a rigid translation. Each such
    vector that is not numerically zero becomes a constraint; the
    constraints of an order form a set, so repeated vectors are kept once.

    The combination generator, the cutoff test, the canonical reordering of
    an index tuple and the table of direction assignments are given to the
    model as inputs. */
module Translation {
  import opened FcTerms
  import opened Arith

  /** Threshold under which a constraint weight counts as zero. */
  const Eps10: real := 0.0000000001

  function Abs(x: real): real {
    if x < 0.0 then -x else x
  }

  /** Every entry is within Eps10 of zero. */
  predicate AllZero(v: seq<real>) {
    forall i :: 0 <= i < |v| ==> Abs(v[i]) <= Eps10
  }

  /** Whether the first n entries are all within Eps10 of zero; stops at
      the first entry that is not. */
  method IsAllZero(n: nat, arr: array<real>) returns (b: bool)
    requires n <= arr.Length
    ensures b <==> AllZero(arr[..n])
  {
    var i := 0;
    while i < n
      invariant 0 <= i <= n && AllZero(arr[..i])
    {
      if Abs(arr[i]) > Eps10 {
        assert arr[..n][i] == arr[i];
        return false;
      }
      i := i + 1;
    }
    assert arr[..i] == arr[..n];
    return true;
  }

  /** Term records found by their index tuple. */
  type TermIndex = map<seq<nat>, FcProperty>

  /** Two records of the list share their index tuple. */
  predicate HasDuplicate(terms: seq<FcProperty>) {
    exists i, j :: 0 <= i < j < |terms| && terms[i].elems == terms[j].elems
  }

  /** The index holding every record under its own tuple. */
  function IndexOf(terms: seq<FcProperty>): (index: TermIndex)
    ensures forall key :: key in index <==> exists i :: 0 <= i < |terms| && terms[i].elems == key
  {
    if terms == [] then map[]
    else
      var front := terms[..|terms| - 1];
      var t := terms[|terms| - 1];
      var index := IndexOf(front);
      assert forall i :: 0 <= i < |front| ==> front[i] == terms[i];
      index[t.elems := t]
  }

  /** Without repeated tuples, looking up a record's tuple finds that record. */
  lemma {:induction false} IndexFindsEveryTerm(terms: seq<FcProperty>, i: nat)
    requires !HasDuplicate(terms) && i < |terms|
    ensures IndexOf(terms)[terms[i].elems] == terms[i]
  {
    var n := |terms|;
    var front := terms[..n - 1];
    if i < n - 1 {
      NoDuplicateInFront(terms);
      assert front[i] == terms[i];
      IndexFindsEveryTerm(front, i);
      LookupPastLast(terms, i);
    }
  }

  /** Looking up a tuple other than the last record's goes to the index of
      the records before it. */
  lemma LookupPastLast(terms: seq<FcProperty>, i: nat)
    requires !HasDuplicate(terms) && i < |terms| - 1
    requires terms[i].elems in IndexOf(terms[..|terms| - 1])
    ensures IndexOf(terms)[terms[i].elems] == IndexOf(terms[..|terms| - 1])[terms[i].elems]
  {
    assert terms[i].elems != terms[|terms| - 1].elems;
  }

  /** Dropping the last record keeps the tuples distinct. */
  lemma NoDuplicateInFront(terms: seq<FcProperty>)
    requires !HasDuplicate(terms) && terms != []
    ensures !HasDuplicate(terms[..|terms| - 1])
  {
    var front := terms[..|terms| - 1];
    forall a, b | 0 <= a < b < |front|
      ensures front[a].elems != front[b].elems
    {
      assert front[a] == terms[a] && front[b] == terms[b];
    }
  }

  /** The outcome of indexing one order's records. */
  datatype Indexed = DuplicateTerm | Indexed(index: TermIndex)

  /** Inserts the records one by one and stops at the first record whose
      tuple is already present. */
  method BuildIndex(terms: seq<FcProperty>) returns (r: Indexed)
    ensures r.DuplicateTerm? <==> HasDuplicate(terms)
    ensures r.Indexed? ==> r.index == IndexOf(terms)
  {
    var index: TermIndex := map[];
    var k := 0;
    while k < |terms|
      invariant 0 <= k <= |terms| && index == IndexOf(terms[..k])
      invariant !HasDuplicate(terms[..k])
    {
      assert terms[..k + 1][..k] == terms[..k];
      if terms[k].elems in index {
        var i :| 0 <= i < k && terms[..k][i].elems == terms[k].elems;
        assert terms[i].elems == terms[k].elems;
        return DuplicateTerm;
      }
      index := index[terms[k].elems := terms[k]];
      assert !HasDuplicate(terms[..k + 1]) by {
        var next := terms[..k + 1];
        forall a, b | 0 <= a < b < |next|
          ensures next[a].elems != next[b].elems
        {
          if b < k {
            assert terms[..k][a] == next[a] && terms[..k][b] == next[b];
          } else {
            assert terms[..k][a].elems == next[a].elems;
          }
        }
      }
      k := k + 1;
    }
    assert terms[..k] == terms;
    return Indexed(index);
  }

  /** Every record's group index addresses an entry of the constraint vector. */
  predicate MothersWithin(index: TermIndex, nparams: nat) {
    forall key :: key in index ==> index[key].mother < nparams
  }

  /** What looking up key adds to the weight of parameter m. */
  function Found(index: TermIndex, key: seq<nat>, m: nat): real {
    if key in index && index[key].mother == m then index[key].coef else 0.0
  }

  /** The summed coefficient of parameter m over the records found for keys. */
  function Weight(keys: seq<seq<nat>>, index: TermIndex, m: nat): real {
    if keys == [] then 0.0 else Weight(keys[..|keys| - 1], index, m) + Found(index, keys[|keys| - 1], m)
  }

  /** The constraint vector collected from the keys: entry m is the summed
      coefficient of the records of parameter m that the keys find. */
  function ConstraintVector(keys: seq<seq<nat>>, index: TermIndex, nparams: nat): (v: seq<real>)
    ensures |v| == nparams
  {
    seq(nparams, m requires 0 <= m < nparams => Weight(keys, index, m))
  }

  /** Keys that find no record give the zero vector, which is never kept. */
  lemma {:induction false} UnmatchedKeysGiveZero(keys: seq<seq<nat>>, index: TermIndex, nparams: nat)
    requires forall k :: 0 <= k < |keys| ==> keys[k] !in index
    ensures AllZero(ConstraintVector(keys, index, nparams))
  {
    forall m | 0 <= m < nparams
      ensures Weight(keys, index, m) == 0.0
    {
      WeightOfUnmatched(keys, index, m);
    }
  }

  lemma {:induction false} WeightOfUnmatched(keys: seq<seq<nat>>, index: TermIndex, m: nat)
    requires forall k :: 0 <= k < |keys| ==> keys[k] !in index
    ensures Weight(keys, index, m) == 0.0
  {
    if keys != [] {
      var front := keys[..|keys| - 1];
      assert forall k :: 0 <= k < |front| ==> front[k] == keys[k];
      WeightOfUnmatched(front, index, m);
    }
  }

  /** Sets every entry to zero. */
  method Reset(arr: array<real>)
    modifies arr
    ensures forall m :: 0 <= m < arr.Length ==> arr[m] == 0.0
  {
    var j := 0;
    while j < arr.Length
      invariant 0 <= j <= arr.Length && forall m :: 0 <= m < j ==> arr[m] == 0.0
    {
      arr[j] := 0.0;
      j := j + 1;
    }
  }

  /** Looks key up and, when a record is found, adds its coefficient to the
      entry of its parameter. */
  method AddFound(arr: array<real>, key: seq<nat>, index: TermIndex)
    requires MothersWithin(index, arr.Length)
    modifies arr
    ensures forall m :: 0 <= m < arr.Length ==> arr[m] == old(arr[m]) + Found(index, key, m)
  {
    if key in index {
      var t := index[key];
      arr[t.mother] := arr[t.mother] + t.coef;
    }
  }

  /** The harmonic keys of one constraint: the pair (3*iat + icrd,
      3*a + jcrd) for the atoms a < count. */
  function Order0Keys(iat: nat, icrd: nat, jcrd: nat, count: nat): (keys: seq<seq<nat>>)
    ensures |keys| == count
  {
    if count == 0 then [] else Order0Keys(iat, icrd, jcrd, count - 1) + [[3 * iat + icrd, 3 * (count - 1) + jcrd]]
  }

  /** Resets the scratch vector and collects the harmonic constraint for
      atom iat and directions icrd, jcrd over all natoms atoms. */
  method Order0Constraint(arr: array<real>, iat: nat, icrd: nat, jcrd: nat, natoms: nat, index: TermIndex)
    requires MothersWithin(index, arr.Length)
    modifies arr
    ensures arr[..] == ConstraintVector(Order0Keys(iat, icrd, jcrd, natoms), index, arr.Length)
  {
    Reset(arr);
    var a := 0;
    while a < natoms
      invariant 0 <= a <= natoms
      invariant forall m :: 0 <= m < arr.Length ==> arr[m] == Weight(Order0Keys(iat, icrd, jcrd, a), index, m)
    {
      AddFound(arr, [3 * iat + icrd, 3 * a + jcrd], index);
      a := a + 1;
    }
  }

  /** The coordinate tuple of the atoms under one direction assignment. */
  function Coordinates(atoms: seq<nat>, xyz: seq<nat>): (r: seq<nat>)
    requires |atoms| == |xyz|
    ensures |r| == |atoms|
  {
    seq(|atoms|, j requires 0 <= j < |atoms| => 3 * atoms[j] + xyz[j])
  }

  /** The keys of one higher-order constraint: for every atom a < count that
      keeps atoms + [a] within the cutoff, the canonically reordered tuple of
      the atoms' coordinates followed by 3*a + jcrd. */
  function HigherKeys(atoms: seq<nat>, xyz: seq<nat>, jcrd: nat, count: nat,
                      inCutoff: seq<nat> -> bool, sortTail: seq<nat> -> seq<nat>): seq<seq<nat>>
    requires |atoms| == |xyz|
  {
    if count == 0 then []
    else
      HigherKeys(atoms, xyz, jcrd, count - 1, inCutoff, sortTail)
      + (if inCutoff(atoms + [count - 1]) then [sortTail(Coordinates(atoms, xyz) + [3 * (count - 1) + jcrd])] else [])
  }

  /** Resets the scratch vector and collects the constraint of one atom
      cluster, direction assignment and direction jcrd of the moving atom. */
  method HigherConstraint(arr: array<real>, atoms: seq<nat>, xyz: seq<nat>, jcrd: nat, natoms: nat, index: TermIndex,
                          inCutoff: seq<nat> -> bool, sortTail: seq<nat> -> seq<nat>)
    requires MothersWithin(index, arr.Length) && |atoms| == |xyz|
    modifies arr
    ensures arr[..] == ConstraintVector(HigherKeys(atoms, xyz, jcrd, natoms, inCutoff, sortTail), index, arr.Length)
  {
    Reset(arr);
    var a := 0;
    while a < natoms
      invariant 0 <= a <= natoms
      invariant forall m :: 0 <= m < arr.Length ==> arr[m] == Weight(HigherKeys(atoms, xyz, jcrd, a, inCutoff, sortTail), index, m)
    {
      ghost var before := HigherKeys(atoms, xyz, jcrd, a, inCutoff, sortTail);
      if inCutoff(atoms + [a]) {
        var key := sortTail(Coordinates(atoms, xyz) + [3 * a + jcrd]);
        assert HigherKeys(atoms, xyz, jcrd, a + 1, inCutoff, sortTail) == before + [key];
        AddFound(arr, key, index);
      } else {
        assert HigherKeys(atoms, xyz, jcrd, a + 1, inCutoff, sortTail) == before;
      }
      a := a + 1;
    }
  }

  /** The set of constraints the key lists produce: the vectors that are not
      all zero. */
  function ConstraintSet(keyLists: seq<seq<seq<nat>>>, index: TermIndex, nparams: nat): set<seq<real>> {
    if keyLists == [] then {}
    else
      var v := ConstraintVector(keyLists[|keyLists| - 1], index, nparams);
      ConstraintSet(keyLists[..|keyLists| - 1], index, nparams) + (if AllZero(v) then {} else {v})
  }

  /** A vector is a constraint exactly when some key list produces it and
      it is not all zero. */
  lemma {:induction false} ConstraintSetMembers(keyLists: seq<seq<seq<nat>>>, index: TermIndex, nparams: nat, v: seq<real>)
    ensures v in ConstraintSet(keyLists, index, nparams) <==>
            !AllZero(v) && exists k :: 0 <= k < |keyLists| && ConstraintVector(keyLists[k], index, nparams) == v
  {
    if keyLists != [] {
      var n := |keyLists|;
      var front := keyLists[..n - 1];
      ConstraintSetMembers(front, index, nparams, v);
      if exists k :: 0 <= k < |front| && ConstraintVector(front[k], index, nparams) == v {
        var k :| 0 <= k < |front| && ConstraintVector(front[k], index, nparams) == v;
        assert keyLists[k] == front[k];
      }
      if exists k :: 0 <= k < n && ConstraintVector(keyLists[k], index, nparams) == v {
        var k :| 0 <= k < n && ConstraintVector(keyLists[k], index, nparams) == v;
        if k < n - 1 {
          assert front[k] == keyLists[k];
        }
      }
    }
  }

  /** Every stored constraint has one entry per parameter and is not all
      zero, and there are at most as many as key lists. */
  lemma {:induction false} ConstraintSetShape(keyLists: seq<seq<seq<nat>>>, index: TermIndex, nparams: nat)
    ensures forall v :: v in ConstraintSet(keyLists, index, nparams) ==> |v| == nparams && !AllZero(v)
    ensures |ConstraintSet(keyLists, index, nparams)| <= |keyLists|
  {
    if keyLists != [] {
      ConstraintSetShape(keyLists[..|keyLists| - 1], index, nparams);
    }
  }

  /** The constraints of a concatenation are the union of the constraints. */
  lemma {:induction false} ConstraintSetAppend(a: seq<seq<seq<nat>>>, b: seq<seq<seq<nat>>>, index: TermIndex, nparams: nat)
    ensures ConstraintSet(a + b, index, nparams) == ConstraintSet(a, index, nparams) + ConstraintSet(b, index, nparams)
  {
    if b == [] {
      assert a + b == a;
    } else {
      var n := |b|;
      assert (a + b)[..|a + b| - 1] == a + b[..n - 1];
      ConstraintSetAppend(a, b[..n - 1], index, nparams);
    }
  }

  /** The constraints of a prefix one longer. */
  lemma ConstraintSetStep(keyLists: seq<seq<seq<nat>>>, k: nat, index: TermIndex, nparams: nat)
    requires k < |keyLists|
    ensures var v := ConstraintVector(keyLists[k], index, nparams);
            ConstraintSet(keyLists[..k + 1], index, nparams)
            == ConstraintSet(keyLists[..k], index, nparams) + (if AllZero(v) then {} else {v})
  {
    assert keyLists[..k + 1][..k] == keyLists[..k];
  }

  /** The nine harmonic key lists of one atom, directions (c / 3, c % 3). */
  function AtomKeyLists0(iat: nat, natoms: nat): (r: seq<seq<seq<nat>>>)
    ensures |r| == 9
  {
    seq(9, c requires 0 <= c < 9 => Order0Keys(iat, c / 3, c % 3, natoms))
  }

  /** The harmonic key lists over all representative atoms. */
  function Order0KeyLists(reps: seq<nat>, natoms: nat): (r: seq<seq<seq<nat>>>)
    ensures |r| == 9 * |reps|
  {
    if reps == [] then [] else Order0KeyLists(reps[..|reps| - 1], natoms) + AtomKeyLists0(reps[|reps| - 1], natoms)
  }

  /** The harmonic constraints are at most nine per representative atom. */
  lemma Order0Bound(reps: seq<nat>, natoms: nat, index: TermIndex, nparams: nat)
    ensures |ConstraintSet(Order0KeyLists(reps, natoms), index, nparams)| <= 9 * |reps|
  {
    ConstraintSetShape(Order0KeyLists(reps, natoms), index, nparams);
  }

  /** The three key lists of one direction assignment, one per direction
      of the moving atom. */
  function RowKeyLists(atoms: seq<nat>, xyz: seq<nat>, natoms: nat,
                       inCutoff: seq<nat> -> bool, sortTail: seq<nat> -> seq<nat>): (r: seq<seq<seq<nat>>>)
    requires |atoms| == |xyz|
    ensures |r| == 3
  {
    [HigherKeys(atoms, xyz, 0, natoms, inCutoff, sortTail),
     HigherKeys(atoms, xyz, 1, natoms, inCutoff, sortTail),
     HigherKeys(atoms, xyz, 2, natoms, inCutoff, sortTail)]
  }

  /** Every direction assignment names one direction per atom of the cluster. */
  predicate AssignmentsFit(xyz: seq<seq<nat>>, size: nat) {
    forall x :: 0 <= x < |xyz| ==> |xyz[x]| == size
  }

  /** The key lists of all direction assignments, assignment after assignment. */
  function AssignmentKeyLists(atoms: seq<nat>, xyz: seq<seq<nat>>, natoms: nat,
                              inCutoff: seq<nat> -> bool, sortTail: seq<nat> -> seq<nat>): seq<seq<seq<nat>>>
    requires AssignmentsFit(xyz, |atoms|)
  {
    if xyz == [] then []
    else
      AssignmentKeyLists(atoms, xyz[..|xyz| - 1], natoms, inCutoff, sortTail)
      + RowKeyLists(atoms, xyz[|xyz| - 1], natoms, inCutoff, sortTail)
  }

  lemma AssignmentStep(atoms: seq<nat>, xyz: seq<seq<nat>>, x: nat, natoms: nat, index: TermIndex, nparams: nat,
                       inCutoff: seq<nat> -> bool, sortTail: seq<nat> -> seq<nat>)
    requires AssignmentsFit(xyz, |atoms|) && x < |xyz|
    ensures ConstraintSet(AssignmentKeyLists(atoms, xyz[..x + 1], natoms, inCutoff, sortTail), index, nparams)
            == ConstraintSet(AssignmentKeyLists(atoms, xyz[..x], natoms, inCutoff, sortTail), index, nparams)
               + ConstraintSet(RowKeyLists(atoms, xyz[x], natoms, inCutoff, sortTail), index, nparams)
  {
    assert xyz[..x + 1][..x] == xyz[..x];
    ConstraintSetAppend(AssignmentKeyLists(atoms, xyz[..x], natoms, inCutoff, sortTail),
                        RowKeyLists(atoms, xyz[x], natoms, inCutoff, sortTail), index, nparams);
  }

  /** The key lists of one cluster: none when the cluster is beyond the
      cutoff, otherwise those of every direction assignment. */
  function ClusterKeyLists(atoms: seq<nat>, xyz: seq<seq<nat>>, natoms: nat,
                           inCutoff: seq<nat> -> bool, sortTail: seq<nat> -> seq<nat>): seq<seq<seq<nat>>>
    requires AssignmentsFit(xyz, |atoms|)
  {
    if inCutoff(atoms) then AssignmentKeyLists(atoms, xyz, natoms, inCutoff, sortTail) else []
  }

  /** Every combination of one representative atom has order atoms. */
  predicate CombosOfOrder(combos: seq<seq<nat>>, order: nat) {
    forall k :: 0 <= k < |combos| ==> |combos[k]| == order
  }

  /** The key lists of one representative atom over its combinations. */
  function AtomKeyLists(iat: nat, combos: seq<seq<nat>>, xyz: seq<seq<nat>>, natoms: nat, order: nat,
                        inCutoff: seq<nat> -> bool, sortTail: seq<nat> -> seq<nat>): seq<seq<seq<nat>>>
    requires CombosOfOrder(combos, order) && AssignmentsFit(xyz, order + 1)
  {
    if combos == [] then []
    else
      var n := |combos|;
      assert CombosOfOrder(combos[..n - 1], order);
      AtomKeyLists(iat, combos[..n - 1], xyz, natoms, order, inCutoff, sortTail)
      + ClusterKeyLists([iat] + combos[n - 1], xyz, natoms, inCutoff, sortTail)
  }

  /** The higher-order key lists over all representative atoms. */
  function HigherKeyLists(reps: seq<nat>, combos: seq<seq<seq<nat>>>, xyz: seq<seq<nat>>, natoms: nat, order: nat,
                          inCutoff: seq<nat> -> bool, sortTail: seq<nat> -> seq<nat>): seq<seq<seq<nat>>>
    requires |combos| == |reps| && (forall i :: 0 <= i < |combos| ==> CombosOfOrder(combos[i], order))
    requires AssignmentsFit(xyz, order + 1)
  {
    if reps == [] then []
    else
      var n := |reps|;
      HigherKeyLists(reps[..n - 1], combos[..n - 1], xyz, natoms, order, inCutoff, sortTail)
      + AtomKeyLists(reps[n - 1], combos[n - 1], xyz, natoms, order, inCutoff, sortTail)
  }

  /** The harmonic key list at offset 3 * icrd + jcrd adds its constraint,
      if any, to the constraints of the shorter prefix. */
  lemma Order0Step(iat: nat, natoms: nat, icrd: nat, jcrd: nat, index: TermIndex, nparams: nat)
    requires icrd < 3 && jcrd < 3
    ensures var v := ConstraintVector(Order0Keys(iat, icrd, jcrd, natoms), index, nparams);
            ConstraintSet(AtomKeyLists0(iat, natoms)[..3 * icrd + jcrd + 1], index, nparams)
            == ConstraintSet(AtomKeyLists0(iat, natoms)[..3 * icrd + jcrd], index, nparams) + (if AllZero(v) then {} else {v})
  {
    var lists := AtomKeyLists0(iat, natoms);
    DivModOfOffset(3 * icrd + jcrd, 3, icrd, jcrd);
    assert lists[3 * icrd + jcrd] == Order0Keys(iat, icrd, jcrd, natoms);
    ConstraintSetStep(lists, 3 * icrd + jcrd, index, nparams);
  }

  /** Collects the nine harmonic constraints of atom iat into s. */
  method AtomConstraints0(s: set<seq<real>>, arr: array<real>, iat: nat, natoms: nat, index: TermIndex)
    returns (s': set<seq<real>>)
    requires MothersWithin(index, arr.Length)
    modifies arr
    ensures s' == s + ConstraintSet(AtomKeyLists0(iat, natoms), index, arr.Length)
  {
    ghost var lists := AtomKeyLists0(iat, natoms);
    s' := s;
    var icrd := 0;
    while icrd < 3
      invariant 0 <= icrd <= 3
      invariant s' == s + ConstraintSet(lists[..3 * icrd], index, arr.Length)
    {
      var jcrd := 0;
      while jcrd < 3
        invariant 0 <= jcrd <= 3
        invariant s' == s + ConstraintSet(lists[..3 * icrd + jcrd], index, arr.Length)
      {
        Order0Step(iat, natoms, icrd, jcrd, index, arr.Length);
        Order0Constraint(arr, iat, icrd, jcrd, natoms, index);
        var zero := IsAllZero(arr.Length, arr);
        assert arr[..arr.Length] == arr[..];
        if !zero {
          s' := s' + {arr[..]};
        }
        jcrd := jcrd + 1;
      }
      icrd := icrd + 1;
    }
    assert lists[..9] == lists;
  }

  /** Collects the three constraints of one direction assignment into s. */
  method RowConstraints(s: set<seq<real>>, arr: array<real>, atoms: seq<nat>, xyz: seq<nat>, natoms: nat,
                        index: TermIndex, inCutoff: seq<nat> -> bool, sortTail: seq<nat> -> seq<nat>)
    returns (s': set<seq<real>>)
    requires MothersWithin(index, arr.Length) && |atoms| == |xyz|
    modifies arr
    ensures s' == s + ConstraintSet(RowKeyLists(atoms, xyz, natoms, inCutoff, sortTail), index, arr.Length)
  {
    ghost var lists := RowKeyLists(atoms, xyz, natoms, inCutoff, sortTail);
    s' := s;
    var jcrd := 0;
    while jcrd < 3
      invariant 0 <= jcrd <= 3
      invariant s' == s + ConstraintSet(lists[..jcrd], index, arr.Length)
    {
      ConstraintSetStep(lists, jcrd, index, arr.Length);
      HigherConstraint(arr, atoms, xyz, jcrd, natoms, index, inCutoff, sortTail);
      var zero := IsAllZero(arr.Length, arr);
      assert arr[..arr.Length] == arr[..];
      if !zero {
        s' := s' + {arr[..]};
      }
      jcrd := jcrd + 1;
    }
    assert lists[..3] == lists;
  }

  /** Collects the constraints of one cluster into s. */
  method ClusterConstraints(s: set<seq<real>>, arr: array<real>, atoms: seq<nat>, xyz: seq<seq<nat>>, natoms: nat,
                            index: TermIndex, inCutoff: seq<nat> -> bool, sortTail: seq<nat> -> seq<nat>)
    returns (s': set<seq<real>>)
    requires MothersWithin(index, arr.Length) && AssignmentsFit(xyz, |atoms|)
    modifies arr
    ensures s' == s + ConstraintSet(ClusterKeyLists(atoms, xyz, natoms, inCutoff, sortTail), index, arr.Length)
  {
    s' := s;
    if !inCutoff(atoms) {
      return;
    }
    var ixyz := 0;
    while ixyz < |xyz|
      invariant 0 <= ixyz <= |xyz|
      invariant s' == s + ConstraintSet(AssignmentKeyLists(atoms, xyz[..ixyz], natoms, inCutoff, sortTail), index, arr.Length)
    {
      AssignmentStep(atoms, xyz, ixyz, natoms, index, arr.Length, inCutoff, sortTail);
      s' := RowConstraints(s', arr, atoms, xyz[ixyz], natoms, index, inCutoff, sortTail);
      ixyz := ixyz + 1;
    }
    assert xyz[..ixyz] == xyz;
  }

  /** Collects the constraints of every combination of atom iat into s. */
  method AtomConstraints(s: set<seq<real>>, arr: array<real>, iat: nat, combos: seq<seq<nat>>, xyz: seq<seq<nat>>,
                         natoms: nat, order: nat, index: TermIndex,
                         inCutoff: seq<nat> -> bool, sortTail: seq<nat> -> seq<nat>)
    returns (s': set<seq<real>>)
    requires MothersWithin(index, arr.Length)
    requires CombosOfOrder(combos, order) && AssignmentsFit(xyz, order + 1)
    modifies arr
    ensures s' == s + ConstraintSet(AtomKeyLists(iat, combos, xyz, natoms, order, inCutoff, sortTail), index, arr.Length)
  {
    s' := s;
    var k := 0;
    while k < |combos|
      invariant 0 <= k <= |combos|
      invariant s' == s + ConstraintSet(AtomKeyLists(iat, combos[..k], xyz, natoms, order, inCutoff, sortTail), index, arr.Length)
    {
      AtomConstraintsStep(s, iat, combos, k, xyz, natoms, order, index, arr.Length, inCutoff, sortTail);
      s' := ClusterConstraints(s', arr, [iat] + combos[k], xyz, natoms, index, inCutoff, sortTail);
      k := k + 1;
    }
    assert combos[..k] == combos;
  }

  /** The constraints of the first k + 1 combinations of atom iat are those
      of the first k and those of combination k. */
  lemma AtomConstraintsStep(s: set<seq<real>>, iat: nat, combos: seq<seq<nat>>, k: nat, xyz: seq<seq<nat>>,
                            natoms: nat, order: nat, index: TermIndex, nparams: nat,
                            inCutoff: seq<nat> -> bool, sortTail: seq<nat> -> seq<nat>)
    requires CombosOfOrder(combos, order) && AssignmentsFit(xyz, order + 1) && k < |combos|
    ensures AssignmentsFit(xyz, |[iat] + combos[k]|)
    ensures s + ConstraintSet(AtomKeyLists(iat, combos[..k + 1], xyz, natoms, order, inCutoff, sortTail), index, nparams)
            == s + ConstraintSet(AtomKeyLists(iat, combos[..k], xyz, natoms, order, inCutoff, sortTail), index, nparams)
               + ConstraintSet(ClusterKeyLists([iat] + combos[k], xyz, natoms, inCutoff, sortTail), index, nparams)
  {
    assert combos[..k + 1][..k] == combos[..k];
    ConstraintSetAppend(AtomKeyLists(iat, combos[..k], xyz, natoms, order, inCutoff, sortTail),
                        ClusterKeyLists([iat] + combos[k], xyz, natoms, inCutoff, sortTail), index, nparams);
  }

  /** The inputs of the higher orders fit the order: one list of
      combinations per representative atom, each combination of order
      atoms, each direction assignment of order + 1 directions. */
  predicate HigherInputsFit(reps: seq<nat>, combos: seq<seq<seq<nat>>>, xyz: seq<seq<nat>>, order: nat) {
    && |combos| == |reps|
    && (forall i :: 0 <= i < |combos| ==> CombosOfOrder(combos[i], order))
    && AssignmentsFit(xyz, order + 1)
  }

  /** The key lists of one order over the representative atoms. */
  function KeyLists(order: nat, reps: seq<nat>, combos: seq<seq<seq<nat>>>, xyz: seq<seq<nat>>, natoms: nat,
                    inCutoff: seq<nat> -> bool, sortTail: seq<nat> -> seq<nat>): seq<seq<seq<nat>>>
    requires order > 0 ==> HigherInputsFit(reps, combos, xyz, order)
  {
    if order == 0 then Order0KeyLists(reps, natoms) else HigherKeyLists(reps, combos, xyz, natoms, order, inCutoff, sortTail)
  }

  /** The first i entries, or all of them when there are fewer. */
  function Take<T>(s: seq<T>, i: nat): (r: seq<T>)
    ensures i <= |s| ==> r == s[..i]
  {
    if i <= |s| then s[..i] else s
  }

  /** The key lists of the first i + 1 atoms extend those of the first i by
      those of atom i. */
  lemma KeyListsStep(order: nat, reps: seq<nat>, combos: seq<seq<seq<nat>>>, xyz: seq<seq<nat>>, natoms: nat,
                     inCutoff: seq<nat> -> bool, sortTail: seq<nat> -> seq<nat>, i: nat, index: TermIndex, nparams: nat)
    requires order > 0 ==> HigherInputsFit(reps, combos, xyz, order)
    requires i < |reps|
    ensures order > 0 ==> HigherInputsFit(reps[..i], Take(combos, i), xyz, order)
    ensures order > 0 ==> HigherInputsFit(reps[..i + 1], Take(combos, i + 1), xyz, order)
    ensures ConstraintSet(KeyLists(order, reps[..i + 1], Take(combos, i + 1), xyz, natoms, inCutoff, sortTail), index, nparams)
            == ConstraintSet(KeyLists(order, reps[..i], Take(combos, i), xyz, natoms, inCutoff, sortTail), index, nparams)
               + ConstraintSet(if order == 0 then AtomKeyLists0(reps[i], natoms)
                               else AtomKeyLists(reps[i], combos[i], xyz, natoms, order, inCutoff, sortTail), index, nparams)
  {
    assert reps[..i + 1][..i] == reps[..i];
    if order == 0 {
      ConstraintSetAppend(Order0KeyLists(reps[..i], natoms), AtomKeyLists0(reps[i], natoms), index, nparams);
    } else {
      assert combos[..i + 1][..i] == combos[..i];
      ConstraintSetAppend(HigherKeyLists(reps[..i], combos[..i], xyz, natoms, order, inCutoff, sortTail),
                          AtomKeyLists(reps[i], combos[i], xyz, natoms, order, inCutoff, sortTail), index, nparams);
    }
  }

  /** The index keeps the records' own group indices. */
  lemma {:induction false} IndexMothers(terms: seq<FcProperty>, nparams: nat)
    requires forall k :: 0 <= k < |terms| ==> terms[k].mother < nparams
    ensures MothersWithin(IndexOf(terms), nparams)
  {
    if terms != [] {
      var front := terms[..|terms| - 1];
      assert forall k :: 0 <= k < |front| ==> front[k] == terms[k];
      IndexMothers(front, nparams);
    }
  }

  /** The outcome of generating one order's constraints. */
  datatype Generated = DuplicateFound | Generated(constraints: set<seq<real>>)

  /** The constraints of one order: none when the order has no parameters;
      otherwise the records are indexed (a repeated tuple stops the run)
      and the constraints of every representative atom are collected. */
  method OrderConstraints(order: nat, terms: seq<FcProperty>, nparams: nat, reps: seq<nat>, natoms: nat,
                          combos: seq<seq<seq<nat>>>, xyz: seq<seq<nat>>,
                          inCutoff: seq<nat> -> bool, sortTail: seq<nat> -> seq<nat>) returns (r: Generated)
    requires forall k :: 0 <= k < |terms| ==> terms[k].mother < nparams
    requires order > 0 ==> HigherInputsFit(reps, combos, xyz, order)
    ensures nparams == 0 ==> r == Generated({})
    ensures nparams > 0 ==> (r.DuplicateFound? <==> HasDuplicate(terms))
    ensures nparams > 0 && r.Generated? ==>
              r.constraints == ConstraintSet(KeyLists(order, reps, combos, xyz, natoms, inCutoff, sortTail), IndexOf(terms), nparams)
  {
    if nparams == 0 {
      return Generated({});
    }
    var built := BuildIndex(terms);
    if built.DuplicateTerm? {
      return DuplicateFound;
    }
    var index := built.index;
    IndexMothers(terms, nparams);
    var arr := new real[nparams];
    var s := CollectOrder(arr, order, reps, combos, xyz, natoms, index, inCutoff, sortTail);
    return Generated(s);
  }

  /** Collects the constraints of every representative atom of one order,
      using arr as the scratch vector. */
  method CollectOrder(arr: array<real>, order: nat, reps: seq<nat>, combos: seq<seq<seq<nat>>>, xyz: seq<seq<nat>>,
                      natoms: nat, index: TermIndex, inCutoff: seq<nat> -> bool, sortTail: seq<nat> -> seq<nat>)
    returns (s: set<seq<real>>)
    requires MothersWithin(index, arr.Length)
    requires order > 0 ==> HigherInputsFit(reps, combos, xyz, order)
    modifies arr
    ensures s == ConstraintSet(KeyLists(order, reps, combos, xyz, natoms, inCutoff, sortTail), index, arr.Length)
  {
    s := {};
    var i := 0;
    while i < |reps|
      invariant 0 <= i <= |reps|
      invariant order > 0 ==> HigherInputsFit(reps[..i], Take(combos, i), xyz, order)
      invariant s == ConstraintSet(KeyLists(order, reps[..i], Take(combos, i), xyz, natoms, inCutoff, sortTail), index, arr.Length)
    {
      KeyListsStep(order, reps, combos, xyz, natoms, inCutoff, sortTail, i, index, arr.Length);
      if order == 0 {
        s := AtomConstraints0(s, arr, reps[i], natoms, index);
      } else {
        s := AtomConstraints(s, arr, reps[i], combos[i], xyz, natoms, order, index, inCutoff, sortTail);
      }
      i := i + 1;
    }
    assert reps[..i] == reps;
    assert order > 0 ==> Take(combos, i) == combos;
  }

  /** Every stored constraint of an order has one entry per parameter and
      an entry above Eps10; the harmonic order has at most nine per
      representative atom. */
  lemma GeneratedShape(order: nat, terms: seq<FcProperty>, nparams: nat, reps: seq<nat>, natoms: nat,
                       combos: seq<seq<seq<nat>>>, xyz: seq<seq<nat>>,
                       inCutoff: seq<nat> -> bool, sortTail: seq<nat> -> seq<nat>, v: seq<real>)
    requires order > 0 ==> HigherInputsFit(reps, combos, xyz, order)
    requires v in ConstraintSet(KeyLists(order, reps, combos, xyz, natoms, inCutoff, sortTail), IndexOf(terms), nparams)
    ensures |v| == nparams && exists i :: 0 <= i < |v| && Abs(v[i]) > Eps10
  {
    ConstraintSetShape(KeyLists(order, reps, combos, xyz, natoms, inCutoff, sortTail), IndexOf(terms), nparams);
  }
}
