/** std::upper_bound over a sequence sorted by a key. */
module Search {

  ghost predicate SortedBy<T>(s: seq<T>, key: T -> int) {
    forall i, j :: 0 <= i < j < |s| ==> key(s[i]) < key(s[j])
  }

  ghost predicate NondecreasingBy<T>(s: seq<T>, key: T -> int) {
    forall i, j :: 0 <= i < j < |s| ==> key(s[i]) <= key(s[j])
  }

  /** The number of leading elements whose key is not above v; keys may repeat. */
  method UpperBound<T>(s: seq<T>, key: T -> int, v: int) returns (k: nat)
    requires NondecreasingBy(s, key)
    ensures k <= |s|
    ensures forall i :: 0 <= i < k ==> key(s[i]) <= v
    ensures forall i :: k <= i < |s| ==> v < key(s[i])
  {
    var lo, hi := 0, |s|;
    while lo < hi
      invariant 0 <= lo <= hi <= |s|
      invariant forall i :: 0 <= i < lo ==> key(s[i]) <= v
      invariant forall i :: hi <= i < |s| ==> v < key(s[i])
    {
      var mid := (lo + hi) / 2;
      if key(s[mid]) <= v { lo := mid + 1; } else { hi := mid; }
    }
    k := lo;
  }
}
