/** Mapping a global displacement/force coordinate index onto the rows of one
    snapshot block: the coordinate n belongs to atom n/3, direction n%3, and
    its row is 3*i + n%3, where i is the first atom of the minimal (symmetry
    irreducible) subset whose representative atom is n/3. */
module AtomMap {

  /** Position of the first occurrence of a in reps. */
  function FirstIndexOf(reps: seq<nat>, a: nat): (i: nat)
    requires a in reps
    ensures i < |reps| && reps[i] == a
    ensures forall k :: 0 <= k < i ==> reps[k] != a
  {
    if reps[0] == a then 0 else 1 + FirstIndexOf(reps[1..], a)
  }

  /** The row that inprim_index assigns to coordinate n. */
  function RowOfCoordinate(reps: seq<nat>, n: nat): nat
    requires n / 3 in reps
  {
    3 * FirstIndexOf(reps, n / 3) + n % 3
  }

  /** inprim_index(n): the search over the minimal subset. reps[i] is the
      representative atom map_p2s[i][0]; the source leaves its result
      uninitialised when no representative matches, so a match is required. */
  method InprimIndex(reps: seq<nat>, n: nat) returns (r: nat)
    requires n / 3 in reps
    ensures r == RowOfCoordinate(reps, n)
    ensures r < 3 * |reps| && r % 3 == n % 3 && reps[r / 3] == n / 3
  {
    var atmn := n / 3;
    var crdn := n % 3;
    var i := 0;
    while reps[i] != atmn
      invariant 0 <= i < |reps| && atmn in reps[i..]
      invariant forall k :: 0 <= k < i ==> reps[k] != atmn
      decreases |reps| - i
    {
      assert reps[i..] == [reps[i]] + reps[i + 1..];
      i := i + 1;
    }
    r := 3 * i + crdn;
    assert r / 3 == i;
  }
}
