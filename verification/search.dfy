/** Linear first-match search in list order, the lookup both
    find-or-create operations use (`for … of` with an early `return`, and
    `Array.prototype.find`). */
module Search {

  /** Position of the first element satisfying `p`, or `|xs|` when none does. */
  function FirstIndex<T>(xs: seq<T>, p: T -> bool): (k: nat)
    ensures k <= |xs|
    ensures k < |xs| ==> p(xs[k])
    ensures forall j :: 0 <= j < k ==> !p(xs[j])
  {
    if |xs| == 0 then 0
    else if p(xs[0]) then 0
    else 1 + FirstIndex(xs[1..], p)
  }

  /** Elements appended after the first match never change which element
      is found; when nothing matched, the search continues into them. */
  lemma FirstIndexAppend<T>(xs: seq<T>, ys: seq<T>, p: T -> bool)
    ensures FirstIndex(xs + ys, p)
            == if FirstIndex(xs, p) < |xs| then FirstIndex(xs, p) else |xs| + FirstIndex(ys, p)
  {
    var k := FirstIndex(xs + ys, p);
    var i := FirstIndex(xs, p);
    if i < |xs| {
      assert (xs + ys)[i] == xs[i];
      FirstIndexIsLeast(xs + ys, p, i);
    } else {
      var j := FirstIndex(ys, p);
      if j < |ys| {
        assert (xs + ys)[|xs| + j] == ys[j];
        FirstIndexIsLeast(xs + ys, p, |xs| + j);
      }
      assert forall m :: 0 <= m < |xs| ==> (xs + ys)[m] == xs[m];
      assert forall m :: |xs| <= m < |xs| + j ==> (xs + ys)[m] == ys[m - |xs|];
    }
  }

  /** The first index is the least matching one. */
  lemma FirstIndexIsLeast<T>(xs: seq<T>, p: T -> bool, i: nat)
    requires i < |xs| && p(xs[i])
    ensures FirstIndex(xs, p) <= i
  {
  }
}
