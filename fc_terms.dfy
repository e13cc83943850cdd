/** The term records and parameter groups the fitting consumes.

    For each interaction order o (0 = harmonic, ...), fcSet[o] is the list of
    raw term records and ndup[o] the list of group sizes: the first ndup[o][0]
    records of fcSet[o] form group 0, the next ndup[o][1] records group 1, and
    so on. Every group is one fitted parameter; parameters are numbered order
    by order, group by group. */
module FcTerms {
  import opened Combinatorics

  /** One raw term record: the index tuple (one force coordinate followed by
      order+1 displacement coordinates, each coordinate 3*atom + direction), the
      symmetry coefficient and the index of its group within its order. */
  datatype FcProperty = FcProperty(elems: seq<nat>, coef: real, mother: nat)

  /** Records of order o have index tuples of length o + 2, and the group
      sizes of an order never claim more records than there are. */
  predicate ValidTerms(ndup: seq<seq<nat>>, fcSet: seq<seq<FcProperty>>) {
    && |ndup| == |fcSet|
    && (forall o :: 0 <= o < |fcSet| ==> Sum(ndup[o]) <= |fcSet[o]|)
    && (forall o, m :: 0 <= o < |fcSet| && 0 <= m < |fcSet[o]| ==> |fcSet[o][m].elems| == o + 2)
  }

  /** The records of each group of one order: group g owns the records from
      Sum(ndup[..g]) up to Sum(ndup[..g]) + ndup[g]. */
  function GroupSlices(ndup: seq<nat>, fc: seq<FcProperty>): (r: seq<seq<FcProperty>>)
    requires Sum(ndup) <= |fc|
    ensures |r| == |ndup|
  {
    if ndup == [] then []
    else
      var front := ndup[..|ndup| - 1];
      GroupSlices(front, fc) + [fc[Sum(front)..Sum(ndup)]]
  }

  lemma {:induction false} SumPrefix(s: seq<nat>, g: nat)
    requires g <= |s|
    ensures Sum(s[..g]) <= Sum(s)
  {
    if g < |s| {
      var n := |s|;
      assert s[..n - 1][..g] == s[..g];
      SumPrefix(s[..n - 1], g);
    } else {
      assert s[..g] == s;
    }
  }

  /** Group g is the slice of records between the prefix sums of the sizes. */
  lemma {:induction false} GroupSliceAt(ndup: seq<nat>, fc: seq<FcProperty>, g: nat)
    requires Sum(ndup) <= |fc| && g < |ndup|
    ensures Sum(ndup[..g]) + ndup[g] == Sum(ndup[..g + 1]) <= |fc|
    ensures GroupSlices(ndup, fc)[g] == fc[Sum(ndup[..g])..Sum(ndup[..g + 1])]
  {
    var n := |ndup|;
    var front := ndup[..n - 1];
    SumStep(ndup, g);
    SumPrefix(ndup, g + 1);
    if g < n - 1 {
      assert front[..g] == ndup[..g] && front[..g + 1] == ndup[..g + 1];
      SumPrefix(ndup, n - 1);
      GroupSliceAt(front, fc, g);
    } else {
      assert front == ndup[..g] && ndup[..g + 1] == ndup;
    }
  }

  /** Total number of parameters N: the number of groups over all orders. */
  function NumParams(ndup: seq<seq<nat>>): nat {
    if ndup == [] then 0 else NumParams(ndup[..|ndup| - 1]) + |ndup[|ndup| - 1]|
  }

  /** The records of every parameter, in parameter order. */
  function ParamTerms(ndup: seq<seq<nat>>, fcSet: seq<seq<FcProperty>>): (r: seq<seq<FcProperty>>)
    requires ValidTerms(ndup, fcSet)
    ensures |r| == NumParams(ndup)
  {
    if ndup == [] then []
    else
      var n := |ndup|;
      assert ValidTerms(ndup[..n - 1], fcSet[..n - 1]);
      ParamTerms(ndup[..n - 1], fcSet[..n - 1]) + GroupSlices(ndup[n - 1], fcSet[n - 1])
  }

  lemma {:induction false} NumParamsPrefix(ndup: seq<seq<nat>>, o: nat)
    requires o < |ndup|
    ensures NumParams(ndup[..o + 1]) == NumParams(ndup[..o]) + |ndup[o]|
    ensures NumParams(ndup[..o + 1]) <= NumParams(ndup)
  {
    assert ndup[..o + 1][..o] == ndup[..o];
    if o + 1 < |ndup| {
      var n := |ndup|;
      NumParamsPrefix(ndup[..n - 1], o);
      assert ndup[..n - 1][..o + 1] == ndup[..o + 1];
      assert ndup[..n - 1][..o] == ndup[..o];
    } else {
      assert ndup[..o + 1] == ndup;
    }
  }

  lemma ValidTermsPrefix(ndup: seq<seq<nat>>, fcSet: seq<seq<FcProperty>>, n: nat)
    requires ValidTerms(ndup, fcSet) && n <= |ndup|
    ensures ValidTerms(ndup[..n], fcSet[..n])
  {
  }

  /** Group g of order o is parameter NumParams(ndup[..o]) + g. */
  lemma {:induction false} ParamTermsAt(ndup: seq<seq<nat>>, fcSet: seq<seq<FcProperty>>, o: nat, g: nat)
    requires ValidTerms(ndup, fcSet) && o < |ndup| && g < |ndup[o]|
    ensures NumParams(ndup[..o]) + g < NumParams(ndup)
    ensures ParamTerms(ndup, fcSet)[NumParams(ndup[..o]) + g] == GroupSlices(ndup[o], fcSet[o])[g]
    decreases |ndup|, 1
  {
    NumParamsPrefix(ndup, o);
    var n := |ndup|;
    ValidTermsPrefix(ndup, fcSet, n - 1);
    if o == n - 1 {
      assert ndup[..n - 1] == ndup[..o];
    } else {
      ParamTermsAtFront(ndup, fcSet, o, g);
    }
  }

  lemma {:induction false} ParamTermsAtFront(ndup: seq<seq<nat>>, fcSet: seq<seq<FcProperty>>, o: nat, g: nat)
    requires ValidTerms(ndup, fcSet) && o + 1 < |ndup| && g < |ndup[o]|
    ensures NumParams(ndup[..o]) + g < NumParams(ndup[..|ndup| - 1])
    ensures ParamTerms(ndup, fcSet)[NumParams(ndup[..o]) + g] == GroupSlices(ndup[o], fcSet[o])[g]
    decreases |ndup|, 0
  {
    var n := |ndup|;
    var nd, fs := ndup[..n - 1], fcSet[..n - 1];
    ValidTermsPrefix(ndup, fcSet, n - 1);
    assert nd[..o] == ndup[..o];
    assert nd[o] == ndup[o] && fs[o] == fcSet[o];
    ParamTermsAt(nd, fs, o, g);
  }

  lemma SumStep(s: seq<nat>, g: nat)
    requires g < |s|
    ensures Sum(s[..g + 1]) == Sum(s[..g]) + s[g]
  {
    assert s[..g + 1][..g] == s[..g];
  }
}
