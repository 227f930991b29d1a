// Selecting flags from a flag set (flagset/flagset.go). A flag set is a
// slice value; `Filter` builds a new one and leaves its receiver alone.
module FlagFilter {
  /** The flags `allow` accepts, in their original order. */
  function Kept<F>(flags: seq<F>, allow: F -> bool): (r: seq<F>)
    ensures |r| <= |flags|
    ensures forall k :: 0 <= k < |r| ==> allow(r[k])
  {
    if flags == [] then []
    else
      var front := Kept(flags[..|flags| - 1], allow);
      if allow(flags[|flags| - 1]) then front + [flags[|flags| - 1]] else front
  }

  /** `Filter`: the loop that appends each allowed flag to a new set. */
  method Filter<F>(flags: seq<F>, allow: F -> bool) returns (next: seq<F>)
    ensures next == Kept(flags, allow)
  {
    next := [];
    var i := 0;
    while i < |flags|
      invariant 0 <= i <= |flags|
      invariant next == Kept(flags[..i], allow)
    {
      assert flags[..i + 1][..i] == flags[..i];
      if allow(flags[i]) {
        next := next + [flags[i]];
      }
      i := i + 1;
    }
    assert flags[..i] == flags;
  }

  /** A flag is kept exactly when it is in the set and allowed. */
  lemma {:induction false} KeptMembers<F>(flags: seq<F>, allow: F -> bool, x: F)
    ensures x in Kept(flags, allow) <==> x in flags && allow(x)
  {
    if flags != [] {
      var n := |flags| - 1;
      KeptMembers(flags[..n], allow, x);
      assert flags == flags[..n] + [flags[n]];
    }
  }

  /** `Kept(flags)` is a subsequence of `flags`: each kept flag comes from a later position than the one before. */
  ghost predicate SubsequenceAt<F>(r: seq<F>, flags: seq<F>, pos: seq<nat>)
  {
    && |pos| == |r|
    && (forall k :: 0 <= k < |pos| ==> pos[k] < |flags| && flags[pos[k]] == r[k])
    && (forall k, l :: 0 <= k < l < |pos| ==> pos[k] < pos[l])
  }

  /** The kept flags keep their relative order: there are increasing positions they come from. */
  lemma {:induction false} KeptInOrder<F>(flags: seq<F>, allow: F -> bool) returns (pos: seq<nat>)
    ensures SubsequenceAt(Kept(flags, allow), flags, pos)
  {
    if flags == [] {
      pos := [];
    } else {
      var n := |flags| - 1;
      var front := KeptInOrder(flags[..n], allow);
      if allow(flags[n]) {
        pos := front + [n];
      } else {
        pos := front;
      }
    }
  }

  /** Filtering twice with the same test changes nothing more. */
  lemma {:induction false} KeptIdempotent<F>(flags: seq<F>, allow: F -> bool)
    ensures Kept(Kept(flags, allow), allow) == Kept(flags, allow)
  {
    if flags != [] {
      var n := |flags| - 1;
      KeptIdempotent(flags[..n], allow);
      var front := Kept(flags[..n], allow);
      if allow(flags[n]) {
        var r := front + [flags[n]];
        assert r[..|r| - 1] == front;
      }
    }
  }

  /** A test that accepts every flag keeps the set as it is. */
  lemma {:induction false} KeptAll<F>(flags: seq<F>, allow: F -> bool)
    requires forall k :: 0 <= k < |flags| ==> allow(flags[k])
    ensures Kept(flags, allow) == flags
  {
    if flags != [] {
      var n := |flags| - 1;
      KeptAll(flags[..n], allow);
      assert flags == flags[..n] + [flags[n]];
    }
  }
}
