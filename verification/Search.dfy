/** The C library's bsearch, as an ordinary binary search over the signs a comparison
    gives to positions. */
module Search {

  /** Positions that are too low come first, then matches, then those too high. */
  ghost predicate Monotone(n: nat, side: nat -> int)
  {
    && (forall i, j :: 0 <= i <= j < n && side(j) > 0 ==> side(i) > 0)
    && (forall i, j :: 0 <= i <= j < n && side(i) < 0 ==> side(j) < 0)
  }

  method BinarySearch(n: nat, side: nat -> int) returns (found: bool, at: nat)
    requires Monotone(n, side)
    ensures found ==> at < n && side(at) == 0
    ensures !found ==> forall i :: 0 <= i < n ==> side(i) != 0
  {
    var l, u := 0, n;
    while l < u
      invariant 0 <= l <= u <= n
      invariant forall i :: 0 <= i < l ==> side(i) > 0
      invariant forall i :: u <= i < n ==> side(i) < 0
    {
      var idx := (l + u) / 2;
      var c := side(idx);
      if c < 0 {
        u := idx;
      } else if c > 0 {
        l := idx + 1;
      } else {
        return true, idx;
      }
    }
    return false, 0;
  }
}
