// Cluster membership (cluster/membership.go): two string lists, `active` and
// `left`, each kept in non-decreasing order by inserting at the index
// `sort.SearchStrings` reports.
module Cluster {
  import opened Text
  import GoSort

  predicate Sorted(s: seq<string>)
  {
    forall i, j :: 0 <= i < j < |s| ==> !Less(s[j], s[i])
  }

  predicate StrictlySorted(s: seq<string>)
  {
    forall i, j :: 0 <= i < j < |s| ==> Less(s[i], s[j])
  }

  /** The answers of `a[i] >= x`, the predicate `sort.SearchStrings` searches with. */
  function AtLeast(a: seq<string>, x: string): seq<bool>
  {
    seq(|a|, i requires 0 <= i < |a| => !Less(a[i], x))
  }

  /** `sort.SearchStrings(a, x)`. */
  function SearchStrings(a: seq<string>, x: string): (r: nat)
    ensures r <= |a|
  {
    GoSort.Search(AtLeast(a, x))
  }

  /** On a sorted list the search index splits the elements below `x` from the others. */
  lemma SearchStringsSorted(a: seq<string>, x: string)
    requires Sorted(a)
    ensures var r := SearchStrings(a, x);
      (forall k :: 0 <= k < r ==> Less(a[k], x)) && (forall k :: r <= k < |a| ==> !Less(a[k], x))
  {
    var flags := AtLeast(a, x);
    forall i, j | 0 <= i <= j < |flags| && flags[i]
      ensures flags[j]
    {
      if i < j && Less(a[j], x) {
        LessTotal(a[i], a[j]);
        if Less(a[i], a[j]) { LessTransitive(a[i], a[j], x); }
      }
    }
    GoSort.SearchFirstTrue(flags);
    assert forall k :: 0 <= k < |a| ==> flags[k] == !Less(a[k], x);
  }

  /** The search index of `x` holds `x`. */
  predicate Found(s: seq<string>, x: string)
  {
    var idx := SearchStrings(s, x);
    idx < |s| && s[idx] == x
  }

  lemma FoundIffIn(s: seq<string>, x: string)
    requires Sorted(s)
    ensures Found(s, x) <==> x in s
  {
    SearchStringsSorted(s, x);
    if x in s {
      var k :| 0 <= k < |s| && s[k] == x;
      LessIrreflexive(x);
      var idx := SearchStrings(s, x);
      assert k >= idx;
      if idx < k { assert !Less(s[k], s[idx]); }
      LessTotal(s[idx], x);
    }
  }

  /** The insertion switch of `Add` and `Left`, including its `idx == 0` case. */
  function Insert(s: seq<string>, x: string): seq<string>
  {
    var idx := SearchStrings(s, x);
    if idx == |s| then s + [x]
    else if idx == 0 then [x] + s
    else if s[idx] != x then s[..idx] + [x] + s[idx..]
    else s
  }

  /** The removal switch: drop the element at the search index when it is `x`. */
  function Delete(s: seq<string>, x: string): seq<string>
  {
    var idx := SearchStrings(s, x);
    if idx < |s| && s[idx] == x then s[..idx] + s[idx + 1..] else s
  }

  datatype State = State(active: seq<string>, left: seq<string>)

  predicate ValidState(st: State)
  {
    Sorted(st.active) && Sorted(st.left)
  }

  /** One iteration of the loop in `Add`. */
  function AddPeer(st: State, peer: string): State
  {
    State(Insert(st.active, peer), Delete(st.left, peer))
  }

  /** One iteration of the loop in `Left`: skipped unless the peer is active. */
  function LeavePeer(st: State, peer: string): State
  {
    if Found(st.active, peer) then State(Delete(st.active, peer), Insert(st.left, peer)) else st
  }

  /** One iteration of the loop in `Remove`. */
  function RemovePeer(st: State, peer: string): State
  {
    State(Delete(st.active, peer), Delete(st.left, peer))
  }

  function AddAll(st: State, peers: seq<string>): State
  {
    if peers == [] then st else AddPeer(AddAll(st, peers[..|peers| - 1]), peers[|peers| - 1])
  }

  function LeaveAll(st: State, peers: seq<string>): State
  {
    if peers == [] then st else LeavePeer(LeaveAll(st, peers[..|peers| - 1]), peers[|peers| - 1])
  }

  function RemoveAll(st: State, peers: seq<string>): State
  {
    if peers == [] then st else RemovePeer(RemoveAll(st, peers[..|peers| - 1]), peers[|peers| - 1])
  }

  /** Inserting keeps a list sorted. */
  lemma InsertSorted(s: seq<string>, x: string)
    requires Sorted(s)
    ensures Sorted(Insert(s, x))
  {
    SearchStringsSorted(s, x);
    var idx := SearchStrings(s, x);
    var r := Insert(s, x);
    forall i, j | 0 <= i < j < |r|
      ensures !Less(r[j], r[i])
    {
      if idx == |s| {
        if j == |s| { LessAsymmetric(s[i], x); }
      } else if idx == 0 {
        if i == 0 && j > 0 { assert r[j] == s[j - 1]; }
      } else if s[idx] != x {
        if i < idx && j == idx {
          LessAsymmetric(s[i], x);
        } else if i == idx && j > idx {
          assert r[j] == s[j - 1];
        } else if i < idx && j > idx {
          assert r[j] == s[j - 1];
        }
      }
    }
  }

  /**
   * Insertion adds one copy of `x`, except that an `x` already present and not
   * first is left alone. An `x` equal to the first element is added again.
   */
  lemma InsertCount(s: seq<string>, x: string)
    requires Sorted(s)
    ensures multiset(Insert(s, x)) == multiset(s) + (if x in s && s[0] != x then multiset{} else multiset{x})
  {
    FoundIffIn(s, x);
    var idx := SearchStrings(s, x);
    if idx < |s| && idx != 0 && s[idx] != x {
      assert s == s[..idx] + s[idx..];
      assert x !in s;
    } else if idx == |s| {
      assert x !in s;
    } else if idx != 0 && s[idx] == x {
      assert s[0] != x by {
        SearchStringsSorted(s, x);
        LessIrreflexive(x);
      }
    }
  }

  /** Deleting keeps a list sorted. */
  lemma DeleteSorted(s: seq<string>, x: string)
    requires Sorted(s)
    ensures Sorted(Delete(s, x))
  {
    var idx := SearchStrings(s, x);
    var r := Delete(s, x);
    if idx < |s| && s[idx] == x {
      forall i, j | 0 <= i < j < |r|
        ensures !Less(r[j], r[i])
      {
        if i >= idx { assert r[i] == s[i + 1] && r[j] == s[j + 1]; }
        else if j >= idx { assert r[j] == s[j + 1]; }
      }
    }
  }

  /** Deleting removes exactly one copy of `x` when there is one. */
  lemma DeleteCount(s: seq<string>, x: string)
    requires Sorted(s)
    ensures multiset(Delete(s, x)) == multiset(s) - multiset{x}
  {
    FoundIffIn(s, x);
    DeleteFound(s, x);
  }

  /** When the search finds `x` exactly if it is there, deleting removes one copy of it. */
  lemma DeleteFound(s: seq<string>, x: string)
    requires Found(s, x) <==> x in s
    ensures multiset(Delete(s, x)) == multiset(s) - multiset{x}
  {
    var idx := SearchStrings(s, x);
    if idx < |s| && s[idx] == x {
      CutCount(s, idx);
    } else {
      assert multiset(s)[x] == 0;
    }
  }

  /** Cutting out position `idx` removes one copy of the element there. */
  lemma CutCount(s: seq<string>, idx: nat)
    requires idx < |s|
    ensures multiset(s[..idx] + s[idx + 1..]) == multiset(s) - multiset{s[idx]}
  {
    assert s == s[..idx] + [s[idx]] + s[idx + 1..];
    assert multiset(s) == multiset(s[..idx]) + multiset{s[idx]} + multiset(s[idx + 1..]);
  }

  lemma StrictIsSorted(s: seq<string>)
    requires StrictlySorted(s)
    ensures Sorted(s)
  {
    forall i, j | 0 <= i < j < |s| ensures !Less(s[j], s[i]) { LessAsymmetric(s[i], s[j]); }
  }

  /** Deleting from a list without duplicates removes every `x`. */
  lemma DeleteStrict(s: seq<string>, x: string)
    requires StrictlySorted(s)
    ensures StrictlySorted(Delete(s, x)) && x !in Delete(s, x)
  {
    StrictIsSorted(s);
    FoundIffIn(s, x);
    var idx := SearchStrings(s, x);
    var r := Delete(s, x);
    if idx < |s| && s[idx] == x {
      assert forall k :: 0 <= k < |r| ==> r[k] == if k < idx then s[k] else s[k + 1];
      forall i, j | 0 <= i < j < |r|
        ensures Less(r[i], r[j])
      {
        if i >= idx { assert r[i] == s[i + 1] && r[j] == s[j + 1]; }
        else if j >= idx { assert r[j] == s[j + 1]; }
      }
      LessIrreflexive(x);
      forall k | 0 <= k < |r|
        ensures r[k] != x
      {
        if k < idx { assert Less(s[k], s[idx]); } else { assert Less(s[idx], s[k + 1]); }
      }
    }
  }

  lemma AddPeerValid(st: State, peer: string)
    requires ValidState(st)
    ensures ValidState(AddPeer(st, peer))
  {
    InsertSorted(st.active, peer);
    DeleteSorted(st.left, peer);
  }

  lemma LeavePeerValid(st: State, peer: string)
    requires ValidState(st)
    ensures ValidState(LeavePeer(st, peer))
  {
    InsertSorted(st.left, peer);
    DeleteSorted(st.active, peer);
  }

  lemma RemovePeerValid(st: State, peer: string)
    requires ValidState(st)
    ensures ValidState(RemovePeer(st, peer))
  {
    DeleteSorted(st.active, peer);
    DeleteSorted(st.left, peer);
  }

  /** `Add`, `Left` and `Remove` keep both lists in non-decreasing order. */
  lemma {:induction false} OperationsKeepOrder(st: State, peers: seq<string>)
    requires ValidState(st)
    ensures ValidState(AddAll(st, peers))
    ensures ValidState(LeaveAll(st, peers))
    ensures ValidState(RemoveAll(st, peers))
  {
    if peers != [] {
      var init := peers[..|peers| - 1];
      var last := peers[|peers| - 1];
      OperationsKeepOrder(st, init);
      AddPeerValid(AddAll(st, init), last);
      LeavePeerValid(LeaveAll(st, init), last);
      RemovePeerValid(RemoveAll(st, init), last);
    }
  }

  /** After `Add(peers)` every given peer is active. */
  lemma {:induction false} AddAllActive(st: State, peers: seq<string>)
    requires ValidState(st)
    ensures forall p :: p in peers ==> p in AddAll(st, peers).active
  {
    if peers != [] {
      var init := peers[..|peers| - 1];
      var last := peers[|peers| - 1];
      AddAllActive(st, init);
      OperationsKeepOrder(st, init);
      var mid := AddAll(st, init);
      InsertKeeps(mid.active, last);
      assert AddAll(st, peers).active == Insert(mid.active, last);
      forall p | p in peers
        ensures p in AddAll(st, peers).active
      {
        if p != last {
          assert p in init;
        }
      }
    }
  }

  /** Inserting into a sorted list keeps every element and adds the new one. */
  lemma InsertKeeps(s: seq<string>, x: string)
    requires Sorted(s)
    ensures x in Insert(s, x)
    ensures forall p :: p in s ==> p in Insert(s, x)
  {
    InsertCount(s, x);
    assert x in multiset(Insert(s, x));
    forall p | p in s
      ensures p in Insert(s, x)
    {
      assert p in multiset(s);
    }
  }

  /**
   * After `Add(peers)` no given peer is in `left`, provided `left` held no
   * duplicates beforehand (the `idx == 0` case can create them).
   */
  lemma {:induction false} AddAllNotLeft(st: State, peers: seq<string>)
    requires StrictlySorted(st.left)
    ensures StrictlySorted(AddAll(st, peers).left)
    ensures forall p :: p in peers ==> p !in AddAll(st, peers).left
  {
    if peers != [] {
      var init := peers[..|peers| - 1];
      var last := peers[|peers| - 1];
      AddAllNotLeft(st, init);
      var mid := AddAll(st, init);
      DeleteStrict(mid.left, last);
      StrictIsSorted(mid.left);
      DeleteCount(mid.left, last);
      forall p | p in peers
        ensures p !in AddAll(st, peers).left
      {
        if p != last {
          assert p in init;
          assert p !in multiset(mid.left);
        }
      }
    }
  }

  /** `Left` moves an active peer to `left`, and skips a peer that is not active. */
  lemma LeavePeerMoves(st: State, peer: string)
    requires ValidState(st)
    ensures var r := LeavePeer(st, peer);
      if peer in st.active then
        multiset(r.active) == multiset(st.active) - multiset{peer} && peer in r.left
      else r == st
  {
    FoundIffIn(st.active, peer);
    DeleteCount(st.active, peer);
    InsertCount(st.left, peer);
    if peer in st.active {
      assert peer in multiset(Insert(st.left, peer));
    }
  }

  /** `Remove` deletes one copy of the peer from each list and nothing else. */
  lemma RemovePeerDeletes(st: State, peer: string)
    requires ValidState(st)
    ensures var r := RemovePeer(st, peer);
      multiset(r.active) == multiset(st.active) - multiset{peer}
      && multiset(r.left) == multiset(st.left) - multiset{peer}
  {
    DeleteCount(st.active, peer);
    DeleteCount(st.left, peer);
  }

  /**
   * As written, a peer equal to the first active element is prepended again:
   * adding "h" twice makes it active twice, and leaving once keeps it active
   * while also listing it as left.
   */
  lemma AddTwiceLeaveOnce()
    ensures AddAll(State([], []), ["h"]) == State(["h"], [])
    ensures AddAll(State(["h"], []), ["h"]) == State(["h", "h"], [])
    ensures LeaveAll(State(["h", "h"], []), ["h"]) == State(["h"], ["h"])
  {
    assert AtLeast(["h"], "h") == [true];
    assert SearchStrings(["h"], "h") == 0;
    assert AtLeast(["h", "h"], "h") == [true, true];
    assert SearchStrings(["h", "h"], "h") == 0;
    assert ["h", "h"][..0] + ["h", "h"][1..] == ["h"];
    assert ["h"][1..] == [];
    assert AtLeast([], "h") == [];
    assert ["h"][..0] == [];
  }

  /** The insertion the lists evidently intend: an element already at its index is never added again. */
  function InsertUnique(s: seq<string>, x: string): seq<string>
  {
    var idx := SearchStrings(s, x);
    if idx < |s| && s[idx] == x then s else s[..idx] + [x] + s[idx..]
  }

  lemma SpliceStrict(s: seq<string>, idx: nat, x: string)
    requires StrictlySorted(s) && idx <= |s|
    requires forall k :: 0 <= k < idx ==> Less(s[k], x)
    requires forall k :: idx <= k < |s| ==> Less(x, s[k])
    ensures StrictlySorted(s[..idx] + [x] + s[idx..])
  {
    var r := s[..idx] + [x] + s[idx..];
    assert forall k :: 0 <= k < |r| ==> r[k] == if k < idx then s[k] else if k == idx then x else s[k - 1];
  }

  /** Unique insertion keeps a duplicate-free sorted list duplicate-free and adds exactly `x`. */
  lemma InsertUniqueStrict(s: seq<string>, x: string)
    requires StrictlySorted(s)
    ensures StrictlySorted(InsertUnique(s, x))
    ensures forall y :: y in InsertUnique(s, x) <==> y in s || y == x
  {
    StrictIsSorted(s);
    SearchStringsSorted(s, x);
    var idx := SearchStrings(s, x);
    if !(idx < |s| && s[idx] == x) {
      forall k | idx <= k < |s|
        ensures Less(x, s[k])
      {
        LessTotal(s[idx], x);
        if k > idx { LessTransitive(x, s[idx], s[k]); }
      }
      SpliceStrict(s, idx, x);
      assert s == s[..idx] + s[idx..];
    }
  }

  /** With unique insertion, adding a peer twice and leaving once makes it inactive. */
  lemma CorrectedAddTwiceLeaveOnce(s: seq<string>, x: string)
    requires StrictlySorted(s)
    ensures x !in Delete(InsertUnique(InsertUnique(s, x), x), x)
  {
    InsertUniqueStrict(s, x);
    InsertUniqueStrict(InsertUnique(s, x), x);
    DeleteStrict(InsertUnique(InsertUnique(s, x), x), x);
  }

  /**
   * As written, with an even number of members the quorum is exactly half, so
   * the two halves of the cluster are disjoint quorums.
   */
  lemma EvenMembershipDisjointQuorums(m: Membership, a: set<string>, b: set<string>)
    requires |m.active| + |m.left| == |a| + |b| && |a| == |b| && a !! b
    ensures |a| >= m.Majority() && |b| >= m.Majority()
  {
  }

  /** The quorum size evidently intended: more than half of `n` members. */
  function QuorumSize(n: nat): (r: nat)
    ensures 2 * r > n && 2 * r <= n + 2
  {
    n / 2 + 1
  }

  /** Any two quorums drawn from the same members share a member. */
  lemma QuorumsIntersect(members: set<string>, a: set<string>, b: set<string>)
    requires a <= members && b <= members
    requires |a| >= QuorumSize(|members|) && |b| >= QuorumSize(|members|)
    ensures a * b != {}
  {
    assert |a + b| <= |members| by { SubsetCard(a + b, members); }
    assert |a + b| == |a| + |b| - |a * b| by { UnionCard(a, b); }
  }

  lemma SubsetCard(a: set<string>, b: set<string>)
    requires a <= b
    ensures |a| <= |b|
  {
    assert b == a + (b - a);
  }

  lemma {:induction false} UnionCard(a: set<string>, b: set<string>)
    ensures |a + b| == |a| + |b| - |a * b|
    decreases |a|
  {
    if a != {} {
      var x :| x in a;
      UnionCard(a - {x}, b);
      if x in b {
        assert (a - {x}) + b == a + b;
        assert (a - {x}) * b == (a * b) - {x};
      } else {
        assert (a - {x}) + b == (a + b) - {x};
        assert (a - {x}) * b == a * b;
      }
    } else {
      assert a + b == b && a * b == {};
    }
  }

  /** The lists a snapshot reports, and the index where `left` starts. */
  datatype Snap = Snap(peers: seq<string>, split: nat)

  class Membership {
    var active: seq<string>
    var left: seq<string>

    ghost predicate Valid()
      reads this
    {
      ValidState(State(active, left))
    }

    constructor ()
      ensures Valid() && active == [] && left == []
    {
      active := [];
      left := [];
    }

    method Add(peers: seq<string>)
      requires Valid()
      modifies this
      ensures Valid()
      ensures State(active, left) == AddAll(State(old(active), old(left)), peers)
    {
      var i := 0;
      while i < |peers|
        invariant 0 <= i <= |peers|
        invariant Valid()
        invariant State(active, left) == AddAll(State(old(active), old(left)), peers[..i])
      {
        var peer := peers[i];
        AddPeerValid(State(active, left), peer);
        left := Delete(left, peer);
        active := Insert(active, peer);
        assert peers[..i + 1][..i] == peers[..i];
        i := i + 1;
      }
      assert peers[..i] == peers;
    }

    method Left(peers: seq<string>)
      requires Valid()
      modifies this
      ensures Valid()
      ensures State(active, left) == LeaveAll(State(old(active), old(left)), peers)
    {
      var i := 0;
      while i < |peers|
        invariant 0 <= i <= |peers|
        invariant Valid()
        invariant State(active, left) == LeaveAll(State(old(active), old(left)), peers[..i])
      {
        var peer := peers[i];
        LeavePeerValid(State(active, left), peer);
        assert peers[..i + 1][..i] == peers[..i];
        i := i + 1;
        if !Found(active, peer) {
          continue;
        }
        active := Delete(active, peer);
        left := Insert(left, peer);
      }
      assert peers[..i] == peers;
    }

    method Remove(peers: seq<string>)
      requires Valid()
      modifies this
      ensures Valid()
      ensures State(active, left) == RemoveAll(State(old(active), old(left)), peers)
    {
      var i := 0;
      while i < |peers|
        invariant 0 <= i <= |peers|
        invariant Valid()
        invariant State(active, left) == RemoveAll(State(old(active), old(left)), peers[..i])
      {
        var peer := peers[i];
        RemovePeerValid(State(active, left), peer);
        active := Delete(active, peer);
        left := Delete(left, peer);
        assert peers[..i + 1][..i] == peers[..i];
        i := i + 1;
      }
      assert peers[..i] == peers;
    }

    /** `active` followed by `left`, and the index where `left` begins. */
    function Snapshot(): (r: Snap)
      reads this
      ensures |r.peers| == |active| + |left| && r.split == |active|
      ensures r.peers[..r.split] == active && r.peers[r.split..] == left
    {
      Snap(active + left, |active|)
    }

    /** The quorum size `(len(active) + len(left) + 1) / 2`: half of all members, rounded up. */
    function Majority(): (r: nat)
      reads this
      ensures 2 * r >= |active| + |left| && 2 * r <= |active| + |left| + 1
    {
      (|active| + |left| + 1) / 2
    }
  }
}
