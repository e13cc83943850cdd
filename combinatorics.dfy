/** The multiplicity factor ("gamma") and the factorial of the fitting module.

    gamma(n, arr) weighs one force-constant term record whose index tuple arr
    may repeat displacement components: it is the number of entries equal to
    arr[0], divided by the product of the factorials of the lengths of the runs
    of equal values in a sorted copy of arr. */
module Combinatorics {

  /** Non-decreasing order. */
  predicate Sorted(s: seq<int>) {
    forall i, j :: 0 <= i < j < |s| ==> s[i] <= s[j]
  }

  /** All entries different. */
  predicate Distinct(s: seq<int>) {
    forall i, j :: 0 <= i < j < |s| ==> s[i] != s[j]
  }

  /** The set of values occurring in s. */
  function Values(s: seq<int>): set<int> {
    set x | x in s
  }

  // ---------------------------------------------------------------------
  // Reference sort: the sorted arrangement of a tuple

  /** Places x before the first entry of s that is not smaller than it. */
  function Insert(x: int, s: seq<int>): (r: seq<int>)
    ensures |r| == |s| + 1 && (r[0] == x || (s != [] && r[0] == s[0]))
  {
    if s == [] then [x]
    else if x <= s[0] then [x] + s
    else [s[0]] + Insert(x, s[1..])
  }

  /** Inserting into a sorted sequence keeps it sorted. */
  lemma {:induction false} InsertSorted(x: int, s: seq<int>)
    requires Sorted(s)
    ensures Sorted(Insert(x, s))
  {
    if s != [] && x > s[0] {
      var t := Insert(x, s[1..]);
      assert Sorted(s[1..]);
      InsertSorted(x, s[1..]);
      assert s[0] <= t[0] by {
        if t[0] != x { assert t[0] == s[1]; }
      }
    }
  }

  /** Inserting adds exactly x to the elements. */
  lemma {:induction false} InsertElements(x: int, s: seq<int>)
    ensures multiset(Insert(x, s)) == multiset(s) + multiset{x}
  {
    if s != [] && x > s[0] {
      InsertElements(x, s[1..]);
      assert s == [s[0]] + s[1..];
    }
  }

  /** The sorted arrangement of s: what sorting a copy of s produces. */
  function SortSeq(s: seq<int>): (r: seq<int>)
    ensures Sorted(r) && multiset(r) == multiset(s) && |r| == |s|
  {
    if s == [] then []
    else
      assert s == [s[0]] + s[1..];
      var t := SortSeq(s[1..]);
      InsertSorted(s[0], t);
      InsertElements(s[0], t);
      Insert(s[0], t)
  }

  /** Two sorted sequences with the same elements are equal: any correct sort
      of a copy of s yields SortSeq(s). */
  lemma {:induction false} SortedPermutationUnique(a: seq<int>, b: seq<int>)
    requires Sorted(a) && Sorted(b) && multiset(a) == multiset(b)
    ensures a == b
  {
    SameLength(a, b);
    if a != [] {
      HeadIsLeast(a, b[0]);
      HeadIsLeast(b, a[0]);
      DropHead(a);
      DropHead(b);
      SortedPermutationUnique(a[1..], b[1..]);
      SameHeadSameTail(a, b);
    }
  }

  lemma SameHeadSameTail(a: seq<int>, b: seq<int>)
    requires a != [] && |a| == |b| && a[0] == b[0] && a[1..] == b[1..]
    ensures a == b
  {
    assert forall k :: 1 <= k < |a| ==> a[k] == a[1..][k - 1];
  }

  lemma SameLength(a: seq<int>, b: seq<int>)
    requires multiset(a) == multiset(b)
    ensures |a| == |b|
  {
    assert |a| == |multiset(a)| && |b| == |multiset(b)|;
  }

  /** The first entry of a sorted sequence is at most any of its elements. */
  lemma HeadIsLeast(a: seq<int>, v: int)
    requires Sorted(a) && v in multiset(a)
    ensures a != [] && a[0] <= v
  {
    var k :| 0 <= k < |a| && a[k] == v;
  }

  /** Removing the first entry keeps a sorted sequence sorted and removes one
      occurrence of that entry. */
  lemma DropHead(a: seq<int>)
    requires Sorted(a) && a != []
    ensures Sorted(a[1..]) && multiset(a[1..]) == multiset(a) - multiset{a[0]}
  {
    assert a == [a[0]] + a[1..];
  }

  /** Sorts a[..] in place (the role of the module's insertion sort `insort`,
      whose body is not part of this model). */
  method Insort(a: array<int>)
    modifies a
    ensures Sorted(a[..]) && multiset(a[..]) == old(multiset(a[..]))
  {
    if a.Length <= 1 {
      return;
    }
    var i := 1;
    while i < a.Length
      invariant 1 <= i <= a.Length
      invariant Sorted(a[..i])
      invariant multiset(a[..]) == old(multiset(a[..]))
    {
      InsertLast(a, i);
      i := i + 1;
    }
    assert a[..i] == a[..];
  }

  /** One insertion step: a[..i] is sorted; afterwards a[..i+1] is. */
  method InsertLast(a: array<int>, i: nat)
    requires 1 <= i < a.Length && Sorted(a[..i])
    modifies a
    ensures Sorted(a[..i + 1]) && multiset(a[..]) == old(multiset(a[..]))
  {
    var j := i;
    while 0 < j && a[j - 1] > a[j]
      invariant 0 <= j <= i
      invariant forall k, l :: 0 <= k < l <= i && l != j ==> a[k] <= a[l]
      invariant 0 < j < i ==> a[j - 1] <= a[j + 1]
      invariant multiset(a[..]) == old(multiset(a[..]))
    {
      Swap(a, j - 1, j);
      j := j - 1;
    }
  }

  method Swap(a: array<int>, i: nat, j: nat)
    requires i < j < a.Length
    modifies a
    ensures a[..] == old(a[..])[i := old(a[j])][j := old(a[i])]
    ensures multiset(a[..]) == old(multiset(a[..]))
  {
    a[i], a[j] := a[j], a[i];
  }

  // ---------------------------------------------------------------------
  // Factorial

  /** n! for n >= 0 (the source recursion does not terminate below 0). */
  function Factorial(n: nat): (r: nat)
    ensures 1 <= r && n <= r
  {
    if n == 1 || n == 0 then 1 else n * Factorial(n - 1)
  }

  // ---------------------------------------------------------------------
  // Run lengths and the denominator

  function Sum(s: seq<nat>): nat {
    if s == [] then 0 else Sum(s[..|s| - 1]) + s[|s| - 1]
  }

  /** Lengths of the maximal runs of equal adjacent values, left to right. */
  function Runs(s: seq<int>): (r: seq<nat>)
    requires |s| >= 1
    ensures 1 <= |r| <= |s|
  {
    if |s| == 1 then [1]
    else
      var r := Runs(s[..|s| - 1]);
      if s[|s| - 1] == s[|s| - 2] then r[..|r| - 1] + [r[|r| - 1] + 1]
      else r + [1]
  }

  /** The run lengths of a tuple account for every entry. */
  lemma {:induction false} RunsSum(s: seq<int>)
    requires |s| >= 1
    ensures Sum(Runs(s)) == |s|
  {
    if |s| > 1 {
      var p := s[..|s| - 1];
      RunsSum(p);
      var r := Runs(p);
      if s[|s| - 1] == s[|s| - 2] {
        var q := r[..|r| - 1] + [r[|r| - 1] + 1];
        assert q[..|q| - 1] == r[..|r| - 1];
        assert Sum(r) == Sum(r[..|r| - 1]) + r[|r| - 1];
      } else {
        assert (r + [1])[..|r|] == r;
      }
    }
  }

  /** For a sorted tuple there is one run per distinct value. */
  lemma {:induction false} RunsCountDistinct(s: seq<int>)
    requires |s| >= 1 && Sorted(s)
    ensures |Runs(s)| == |Values(s)|
  {
    if |s| == 1 {
      assert Values(s) == {s[0]};
    } else {
      var p := s[..|s| - 1];
      assert Sorted(p);
      RunsCountDistinct(p);
      if s[|s| - 1] == s[|s| - 2] {
        RunsCountRepeat(s);
      } else {
        LastExceedsPrefix(s);
        RunsCountNew(s);
      }
    }
  }

  lemma RunsCountRepeat(s: seq<int>)
    requires |s| >= 2 && s[|s| - 1] == s[|s| - 2]
    requires |Runs(s[..|s| - 1])| == |Values(s[..|s| - 1])|
    ensures |Runs(s)| == |Values(s)|
  {
    var p, x := s[..|s| - 1], s[|s| - 1];
    ValuesSnoc(p, x);
    assert s == p + [x];
    assert p[|p| - 1] == x;
    assert Values(s) == Values(p);
  }

  lemma RunsCountNew(s: seq<int>)
    requires |s| >= 2 && s[|s| - 1] != s[|s| - 2]
    requires s[|s| - 1] !in s[..|s| - 1]
    requires |Runs(s[..|s| - 1])| == |Values(s[..|s| - 1])|
    ensures |Runs(s)| == |Values(s)|
  {
    var p, x := s[..|s| - 1], s[|s| - 1];
    ValuesSnoc(p, x);
    assert s == p + [x];
    assert x !in Values(p);
  }

  /** In a sorted tuple whose last two entries differ, the last entry is
      larger than every earlier one. */
  lemma LastExceedsPrefix(s: seq<int>)
    requires |s| >= 2 && Sorted(s) && s[|s| - 1] != s[|s| - 2]
    ensures s[|s| - 1] !in s[..|s| - 1]
  {
    forall k | 0 <= k < |s| - 1 ensures s[k] < s[|s| - 1] {
      assert s[k] <= s[|s| - 2];
    }
  }

  lemma ValuesSnoc(p: seq<int>, x: int)
    ensures Values(p + [x]) == Values(p) + {x}
  {
    forall y ensures y in Values(p + [x]) <==> y in Values(p) + {x} {
      if y in p + [x] && y != x {
        var k :| 0 <= k < |p| + 1 && (p + [x])[k] == y;
        assert p[k] == y;
      }
    }
  }

  /** One more entry equal to the previous one lengthens the last run. */
  lemma RunsStepSame(s: seq<int>, i: nat)
    requires 1 <= i < |s| && s[i] == s[i - 1]
    ensures var r := Runs(s[..i]);
      Runs(s[..i + 1]) == r[..|r| - 1] + [r[|r| - 1] + 1]
  {
    var p := s[..i + 1];
    assert p[..|p| - 1] == s[..i];
    assert p[|p| - 1] == p[|p| - 2];
  }

  /** One more entry different from the previous one starts a new run. */
  lemma RunsStepNew(s: seq<int>, i: nat)
    requires 1 <= i < |s| && s[i] != s[i - 1]
    ensures Runs(s[..i + 1]) == Runs(s[..i]) + [1]
  {
    assert s[..i + 1][..i] == s[..i];
  }

  lemma MultiplicityStep(s: seq<int>, i: nat, v: int)
    requires i < |s|
    ensures multiset(s[..i + 1])[v] == multiset(s[..i])[v] + if s[i] == v then 1 else 0
  {
    assert s[..i + 1] == s[..i] + [s[i]];
  }

  lemma FactorialProductStep(r: seq<nat>, i: nat)
    requires i < |r|
    ensures FactorialProduct(r[..i + 1]) == FactorialProduct(r[..i]) * Factorial(r[i])
  {
    assert r[..i + 1][..i] == r[..i];
  }

  /** Product of the factorials of run lengths. */
  function FactorialProduct(r: seq<nat>): (d: nat)
    ensures d >= 1
  {
    if r == [] then 1 else FactorialProduct(r[..|r| - 1]) * Factorial(r[|r| - 1])
  }

  /** The denominator of gamma: product of the factorials of the run lengths
      of the sorted tuple. */
  function Denominator(s: seq<int>): (d: nat)
    requires |s| >= 1
    ensures d >= 1
  {
    FactorialProduct(Runs(SortSeq(s)))
  }

  /** The value of gamma for the tuple s. */
  function GammaValue(s: seq<int>): real
    requires |s| >= 1
  {
    multiset(s)[s[0]] as real / Denominator(s) as real
  }

  /** The numerator counts the entries equal to the first one: at least the
      first entry itself, at most all of them. */
  lemma NumeratorBounds(s: seq<int>)
    requires |s| >= 1
    ensures 1 <= multiset(s)[s[0]] <= |s|
  {
    assert s[0] in multiset(s);
    MultiplicityAtMostLength(s, s[0]);
  }

  lemma {:induction false} MultiplicityAtMostLength(s: seq<int>, v: int)
    ensures multiset(s)[v] <= |s|
  {
    if s != [] {
      assert s == s[..|s| - 1] + [s[|s| - 1]];
      MultiplicityAtMostLength(s[..|s| - 1], v);
    }
  }

  // ---------------------------------------------------------------------
  // gamma, as the source computes it

  /** gamma(n, arr): copies arr[..n], sorts the copy, counts run lengths and
      the entries equal to arr[0]. arr itself is not modified (no modifies
      clause). */
  method Gamma(n: nat, arr: array<int>) returns (g: real)
    requires 1 <= n <= arr.Length
    ensures g == GammaValue(arr[..n])
  {
    var arrTmp := new int[n];
    var nsame := new nat[n];
    for i := 0 to n
      invariant arrTmp[..i] == arr[..i]
      invariant forall k :: 0 <= k < i ==> nsame[k] == 0
    {
      arrTmp[i] := arr[i];
      nsame[i] := 0;
    }
    assert arrTmp[..] == arr[..n];

    Insort(arrTmp);
    SortedPermutationUnique(arrTmp[..], SortSeq(arr[..n]));

    var nuniq, nsameToFront := CountRuns(n, arr, arrTmp, nsame);

    ghost var runs := nsame[..nuniq];
    var denom := 1;
    for i := 0 to nuniq
      invariant nsame[..nuniq] == runs
      invariant denom == FactorialProduct(runs[..i])
    {
      FactorialProductStep(runs, i);
      denom := denom * Factorial(nsame[i]);
    }
    assert runs[..nuniq] == runs;
    g := nsameToFront as real / denom as real;
  }

  /** The counting loop of gamma: run lengths of the sorted copy arrTmp into
      nsame[..nuniq], and the number of entries of arr[..n] equal to arr[0]. */
  method CountRuns(n: nat, arr: array<int>, arrTmp: array<int>, nsame: array<nat>)
    returns (nuniq: nat, nsameToFront: nat)
    requires 1 <= n <= arr.Length && arrTmp.Length == n && nsame.Length == n
    requires forall k :: 0 <= k < n ==> nsame[k] == 0
    modifies nsame
    ensures 1 <= nuniq <= n
    ensures nsame[..nuniq] == Runs(arrTmp[..])
    ensures nsameToFront == multiset(arr[..n])[arr[0]]
  {
    var indFront := arr[0];
    nsameToFront := 1;
    nuniq := 1;
    var iuniq := 0;
    assert nsame[..] == Zeros(n);
    BumpRun(nsame, 0);
    assert nsame[..] == [1] + Zeros(n - 1) by { OpenRun([], n); }
    assert arr[..n][..1] == [indFront];
    ghost var sorted := arrTmp[..];
    ghost var a := arr[..n];
    ghost var runs: seq<nat> := [1];
    for i := 1 to n
      invariant arrTmp[..] == sorted && arr[..n] == a
      invariant runs == Runs(sorted[..i])
      invariant nuniq == iuniq + 1 == |runs| <= i
      invariant nsame[..] == runs + Zeros(n - nuniq)
      invariant nsameToFront == multiset(a[..i])[indFront]
    {
      iuniq, nuniq, runs := CountStep(arrTmp, nsame, i, iuniq, nuniq, sorted, runs);
      MultiplicityStep(a, i, indFront);
      if arr[i] == indFront {
        nsameToFront := nsameToFront + 1;
      }
    }
    assert sorted[..n] == sorted && a[..n] == a;
    assert nsame[..nuniq] == (runs + Zeros(n - nuniq))[..nuniq];
  }

  /** One pass of the counting loop over the sorted copy: either the entry
      repeats its predecessor (++nsame[iuniq]) or it opens a new run
      (++nsame[++iuniq], ++nuniq). */
  method CountStep(arrTmp: array<int>, nsame: array<nat>, i: nat, iuniq: nat, nuniq: nat,
                   ghost sorted: seq<int>, ghost runs: seq<nat>)
    returns (iuniq': nat, nuniq': nat, ghost runs': seq<nat>)
    requires arrTmp[..] == sorted && nsame.Length == arrTmp.Length && 1 <= i < |sorted|
    requires runs == Runs(sorted[..i]) && nuniq == iuniq + 1 == |runs| <= i
    requires nsame[..] == runs + Zeros(|sorted| - nuniq)
    modifies nsame
    ensures runs' == Runs(sorted[..i + 1]) && nuniq' == iuniq' + 1 == |runs'| <= i + 1
    ensures nsame[..] == runs' + Zeros(|sorted| - nuniq')
  {
    assert arrTmp[i] == sorted[i] && arrTmp[i - 1] == sorted[i - 1];
    if arrTmp[i] == arrTmp[i - 1] {
      RunsStepSame(sorted, i);
      BumpLastRun(runs, |sorted| - nuniq);
      BumpRun(nsame, iuniq);
      iuniq', nuniq', runs' := iuniq, nuniq, runs[..iuniq] + [runs[iuniq] + 1];
    } else {
      RunsStepNew(sorted, i);
      OpenRun(runs, |sorted| - nuniq);
      iuniq' := iuniq + 1;
      BumpRun(nsame, iuniq');
      nuniq' := nuniq + 1;
      runs' := runs + [1];
    }
  }

  /** ++nsame[j]: one more entry in run j. */
  method BumpRun(nsame: array<nat>, j: nat)
    requires j < nsame.Length
    modifies nsame
    ensures nsame[..] == old(nsame[..])[j := old(nsame[j]) + 1]
  {
    nsame[j] := nsame[j] + 1;
  }

  /** m unused counters. */
  function Zeros(m: nat): (z: seq<nat>)
    ensures |z| == m && forall k :: 0 <= k < m ==> z[k] == 0
  {
    seq(m, _ => 0)
  }

  lemma BumpLastRun(r: seq<nat>, m: nat)
    requires |r| >= 1
    ensures var j := |r| - 1; (r + Zeros(m))[j := r[j] + 1] == (r[..j] + [r[j] + 1]) + Zeros(m)
  {
  }

  lemma OpenRun(r: seq<nat>, m: nat)
    requires m >= 1
    ensures (r + Zeros(m))[|r| := (r + Zeros(m))[|r|] + 1] == (r + [1]) + Zeros(m - 1)
  {
    assert (r + Zeros(m))[|r|] == 0;
  }

  // ---------------------------------------------------------------------
  // The two documented special cases

  lemma {:induction false} RunsOfDistinctSorted(s: seq<int>)
    requires |s| >= 1 && Sorted(s) && Distinct(s)
    ensures forall k :: 0 <= k < |Runs(s)| ==> Runs(s)[k] == 1
  {
    if |s| > 1 {
      RunsOfDistinctSorted(s[..|s| - 1]);
    }
  }

  lemma {:induction false} FactorialProductOfOnes(r: seq<nat>)
    requires forall k :: 0 <= k < |r| ==> r[k] == 1
    ensures FactorialProduct(r) == 1
  {
    if r != [] {
      FactorialProductOfOnes(r[..|r| - 1]);
    }
  }

  /** gamma is 1 when all indices are distinct. */
  lemma GammaAllDistinct(s: seq<int>)
    requires |s| >= 1 && Distinct(s)
    ensures GammaValue(s) == 1.0
  {
    var t := SortSeq(s);
    SortedCopyDistinct(s, t);
    RunsOfDistinctSorted(t);
    FactorialProductOfOnes(Runs(t));
    assert Denominator(s) == 1;
    assert s[0] in multiset(s);
    DistinctMultiplicityOne(s, s[0]);
    assert multiset(s)[s[0]] == 1;
  }

  /** A rearrangement of a tuple without repeats has no repeats. */
  lemma SortedCopyDistinct(s: seq<int>, t: seq<int>)
    requires Distinct(s) && multiset(t) == multiset(s)
    ensures Distinct(t)
  {
    forall i, j | 0 <= i < j < |t| ensures t[i] != t[j] {
      if t[i] == t[j] {
        RepeatTwice(t, i, j);
        DistinctMultiplicityOne(s, t[i]);
      }
    }
  }

  lemma RepeatTwice(t: seq<int>, i: nat, j: nat)
    requires i < j < |t| && t[i] == t[j]
    ensures multiset(t)[t[i]] >= 2
  {
    assert t == t[..j] + [t[j]] + t[j + 1..];
    assert t[i] in t[..j];
  }

  lemma {:induction false} DistinctMultiplicityOne(s: seq<int>, v: int)
    requires Distinct(s)
    ensures multiset(s)[v] <= 1
  {
    if s != [] {
      var p := s[..|s| - 1];
      assert s == p + [s[|s| - 1]];
      DistinctMultiplicityOne(p, v);
      if s[|s| - 1] == v {
        assert v !in p;
      }
    }
  }

  lemma {:induction false} RunsOfConstant(s: seq<int>)
    requires |s| >= 1 && forall k :: 0 <= k < |s| ==> s[k] == s[0]
    ensures Runs(s) == [|s|]
  {
    if |s| > 1 {
      var n := |s|;
      var front := s[..n - 1];
      RunsOfConstant(front);
      assert s[n - 1] == s[n - 2];
      assert Runs(s) == Runs(front)[..0] + [Runs(front)[0] + 1];
    }
  }

  lemma {:induction false} MultiplicityOfConstant(s: seq<int>, v: int)
    requires forall k :: 0 <= k < |s| ==> s[k] == v
    ensures multiset(s)[v] == |s|
  {
    if s != [] {
      assert s == s[..|s| - 1] + [v];
      MultiplicityOfConstant(s[..|s| - 1], v);
    }
  }

  /** gamma is n / n! when all n indices are identical. */
  lemma GammaAllSame(s: seq<int>)
    requires |s| >= 1 && forall k :: 0 <= k < |s| ==> s[k] == s[0]
    ensures GammaValue(s) == |s| as real / Factorial(|s|) as real
  {
    var t := SortSeq(s);
    MultiplicityOfConstant(s, s[0]);
    forall k | 0 <= k < |t| ensures t[k] == s[0] {
      assert t[k] in multiset(t);
      assert t[k] in s;
      var j :| 0 <= j < |s| && s[j] == t[k];
    }
    RunsOfConstant(t);
    var r := [|t|];
    assert r[..0] == [];
    assert FactorialProduct(r[..0]) == 1;
    assert FactorialProduct(r) == FactorialProduct(r[..0]) * Factorial(r[0]);
    assert Denominator(s) == Factorial(|s|);
  }
}
