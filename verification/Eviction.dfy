/** Which loaded buckets are closed first (closeUnused in buckets.go). */
module Eviction {

  /** The position visited in round idx: n/2, n/2 - 1, n/2 + 1, n/2 - 2, ... */
  function Pivot(n: nat, idx: nat): int {
    if idx % 2 == 0 then n / 2 + idx / 2 else n / 2 - idx / 2 - 1
  }

  /** The round in which position j is visited. */
  function Turn(n: nat, j: nat): int {
    if j >= n / 2 then 2 * (j - n / 2) else 2 * (n / 2 - 1 - j) + 1
  }

  /** The rounds visit every position exactly once and never leave the list. */
  lemma PivotVisitsAll(n: nat)
    ensures forall idx: nat :: idx < n ==> 0 <= Pivot(n, idx) < n && Turn(n, Pivot(n, idx)) == idx
    ensures forall j: nat :: j < n ==> 0 <= Turn(n, j) < n && Pivot(n, Turn(n, j)) == j
  {
    forall idx: nat | idx < n
      ensures 0 <= Pivot(n, idx) < n && Turn(n, Pivot(n, idx)) == idx
    {
      assert idx / 2 * 2 + idx % 2 == idx;
    }
    forall j: nat | j < n
      ensures 0 <= Turn(n, j) < n && Pivot(n, Turn(n, j)) == j
    {
      if j < n / 2 {
        assert (2 * (n / 2 - 1 - j) + 1) / 2 == n / 2 - 1 - j;
      }
    }
  }

  /** Position i is nearer to the middle than j, or just as near and below it. */
  ghost predicate Nearer(n: nat, i: nat, j: nat) {
    var a, b := if i < n / 2 then n / 2 - i else i - n / 2, if j < n / 2 then n / 2 - j else j - n / 2;
    a < b || (a == b && i <= j)
  }

  /** Positions are visited from the middle outwards. */
  lemma MiddleFirst(n: nat, i: nat, j: nat)
    requires i < n && j < n
    ensures Turn(n, i) <= Turn(n, j) <==> Nearer(n, i, j)
  {
  }
}
