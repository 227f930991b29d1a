// Go's `sort.Search`: a binary search for the boundary of a predicate over
// the indices 0..n-1. The predicate's answers are given as a sequence of
// flags, `flags[i] == f(i)`.
module GoSort {
  /** `sort.Search(len(flags), f)`, halving the window [i, j) exactly as Go's loop does. */
  function Search(flags: seq<bool>): (r: nat)
    ensures r <= |flags|
  {
    SearchIn(flags, 0, |flags|)
  }

  function SearchIn(flags: seq<bool>, i: nat, j: nat): (r: nat)
    requires i <= j <= |flags|
    ensures i <= r <= j
    decreases j - i
  {
    if i < j then
      var h := (i + j) / 2;
      if !flags[h] then SearchIn(flags, h + 1, j) else SearchIn(flags, i, h)
    else i
  }

  /** The answers switch from false to true at most once. */
  predicate Monotone(flags: seq<bool>)
  {
    forall i, j :: 0 <= i <= j < |flags| && flags[i] ==> flags[j]
  }

  /**
   * Whatever the flags, the search stops at a boundary: the flag before the
   * result is false and the flag at the result is true (with false before the
   * start and true past the end).
   */
  lemma {:induction false} SearchInBoundary(flags: seq<bool>, i: nat, j: nat)
    requires i <= j <= |flags|
    requires i == 0 || !flags[i - 1]
    requires j == |flags| || flags[j]
    ensures var r := SearchIn(flags, i, j);
      (r == 0 || !flags[r - 1]) && (r == |flags| || flags[r])
    decreases j - i
  {
    if i < j {
      var h := (i + j) / 2;
      if !flags[h] {
        SearchInBoundary(flags, h + 1, j);
      } else {
        SearchInBoundary(flags, i, h);
      }
    }
  }

  lemma SearchBoundary(flags: seq<bool>)
    ensures var r := Search(flags);
      (r == 0 || !flags[r - 1]) && (r == |flags| || flags[r])
  {
    SearchInBoundary(flags, 0, |flags|);
  }

  /** For monotone flags the search returns the first true index, or the length when none is true. */
  lemma SearchFirstTrue(flags: seq<bool>)
    requires Monotone(flags)
    ensures var r := Search(flags);
      (forall k :: 0 <= k < r ==> !flags[k]) && (forall k :: r <= k < |flags| ==> flags[k])
  {
    SearchBoundary(flags);
  }

  /** The indices whose answer `sort.Search` evaluates on its way to the result. */
  function Probes(flags: seq<bool>, i: nat, j: nat): (r: set<nat>)
    requires i <= j <= |flags|
    ensures forall k :: k in r ==> i <= k < j
    decreases j - i
  {
    if i < j then
      var h := (i + j) / 2;
      {h} + (if !flags[h] then Probes(flags, h + 1, j) else Probes(flags, i, h))
    else {}
  }
}
