/** Iterating hash tables. */
module Listings {
  /** Every element of the set once, in some order: how a hash table is iterated. */
  ghost predicate Listing<T(!new)>(xs: seq<T>, s: set<T>) {
    && (forall x :: x in xs <==> x in s)
    && forall i, j :: 0 <= i < j < |xs| ==> xs[i] != xs[j]
  }

  lemma ListingMore<T(!new)>(xs: seq<T>, s: set<T>, x: T)
    requires Listing(xs, s) && x !in s
    ensures Listing(xs + [x], s + {x})
  {
  }

  lemma {:induction false} ListingLength<T(!new)>(xs: seq<T>, s: set<T>)
    requires Listing(xs, s)
    ensures |xs| == |s|
  {
    if xs == [] {
      assert s == {};
    } else {
      var last := xs[|xs| - 1];
      assert Listing(xs[..|xs| - 1], s - {last});
      ListingLength(xs[..|xs| - 1], s - {last});
    }
  }
}
