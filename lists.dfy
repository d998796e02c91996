/**
  The list primitives both dialogs are built from: JavaScript's
  `Array.prototype.filter` and `Array.prototype.find`, the latter always used
  with the `getById(id)` predicate, which matches an element whose `id` equals
  `id`.
 */
module Lists {

  datatype Option<T> = None | Some(value: T)

  /** `xs.filter(keep)`: the elements of `xs` that satisfy `keep`, in their order. */
  function Filter<T(==,!new)>(xs: seq<T>, keep: T -> bool): (r: seq<T>)
    ensures |r| <= |xs|
    ensures forall x :: x in r <==> x in xs && keep(x)
  {
    if |xs| == 0 then []
    else (if keep(xs[0]) then [xs[0]] else []) + Filter(xs[1..], keep)
  }

  /** Filtering a concatenation filters each part and keeps them in order. */
  lemma {:induction false} FilterAppend<T(!new)>(xs: seq<T>, ys: seq<T>, keep: T -> bool)
    ensures Filter(xs + ys, keep) == Filter(xs, keep) + Filter(ys, keep)
  {
    if |xs| == 0 {
      assert xs + ys == ys;
    } else {
      assert (xs + ys)[1..] == xs[1..] + ys;
      FilterAppend(xs[1..], ys, keep);
    }
  }

  /** A filter that every element passes returns its input unchanged. */
  lemma {:induction false} FilterKeepsAll<T(!new)>(xs: seq<T>, keep: T -> bool)
    requires forall x :: x in xs ==> keep(x)
    ensures Filter(xs, keep) == xs
  {
    if |xs| > 0 {
      FilterKeepsAll(xs[1..], keep);
    }
  }

  /** A filter that no element passes returns the empty list. */
  lemma {:induction false} FilterDropsAll<T(!new)>(xs: seq<T>, keep: T -> bool)
    requires forall x :: x in xs ==> !keep(x)
    ensures Filter(xs, keep) == []
  {
    if |xs| > 0 {
      FilterDropsAll(xs[1..], keep);
    }
  }

  /**
    `xs.find(getById(id))`: the first element whose id (as given by `idOf`)
    equals `id`, or None when there is none.
   */
  function Find<T>(xs: seq<T>, idOf: T -> string, id: string): (r: Option<T>)
    ensures r.None? <==> forall i :: 0 <= i < |xs| ==> idOf(xs[i]) != id
    ensures r.Some? ==> exists i :: 0 <= i < |xs| && xs[i] == r.value && idOf(xs[i]) == id &&
                                    forall j :: 0 <= j < i ==> idOf(xs[j]) != id
  {
    if |xs| == 0 then None
    else if idOf(xs[0]) == id then Some(xs[0])
    else
      var r := Find(xs[1..], idOf, id);
      assert r.Some? ==> exists i :: 1 <= i < |xs| && xs[i] == r.value && idOf(xs[i]) == id &&
                                     forall j :: 0 <= j < i ==> idOf(xs[j]) != id by {
        if r.Some? {
          var k :| 0 <= k < |xs| - 1 && xs[1..][k] == r.value && idOf(xs[1..][k]) == id &&
                   forall j :: 0 <= j < k ==> idOf(xs[1..][j]) != id;
          assert forall j :: 1 <= j < k + 1 ==> idOf(xs[j]) != id by {
            forall j | 1 <= j < k + 1 ensures idOf(xs[j]) != id {
              assert xs[j] == xs[1..][j - 1];
            }
          }
        }
      }
      assert r.None? ==> forall i :: 0 <= i < |xs| ==> idOf(xs[i]) != id by {
        if r.None? {
          forall i | 1 <= i < |xs| ensures idOf(xs[i]) != id {
            assert xs[i] == xs[1..][i - 1];
          }
        }
      }
      r
  }
}
