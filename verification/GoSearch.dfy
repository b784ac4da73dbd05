/** The binary search of Go's sort package. */
module GoSearch {

  /** The smallest index below n at which f holds, or n when there is none,
      for an f that stays true once it is true. */
  method Search(n: nat, f: int -> bool) returns (found: nat)
    requires forall i, j :: 0 <= i <= j < n && f(i) ==> f(j)
    ensures found <= n
    ensures forall i :: 0 <= i < found ==> !f(i)
    ensures forall i :: found <= i < n ==> f(i)
  {
    var i, j := 0, n;
    while i < j
      invariant 0 <= i <= j <= n
      invariant forall k :: 0 <= k < i ==> !f(k)
      invariant forall k :: j <= k < n ==> f(k)
    {
      var h := (i + j) / 2;
      if !f(h) {
        i := h + 1;
      } else {
        j := h;
      }
    }
    found := i;
  }
}
