// One tick of DNS-based discovery (cluster/discovery_dns.go): the resolved
// peers are diffed against the previous round to decide which peers join,
// which leave and which are removed for good.
module Discovery {
  import opened Outcomes
  import Cluster

  function Elements(s: seq<string>): set<string>
  {
    set x | x in s
  }

  predicate Distinct(s: seq<string>)
  {
    forall i, j :: 0 <= i < j < |s| ==> s[i] != s[j]
  }

  /** Resolved peers missing from the previous round, in resolution order. */
  function Joined(addrs: seq<string>, last: set<string>): (r: seq<string>)
    ensures forall p :: p in r <==> p in addrs && p !in last
  {
    if addrs == [] then []
    else Joined(addrs[..|addrs| - 1], last) + (if addrs[|addrs| - 1] in last then [] else [addrs[|addrs| - 1]])
  }

  /** The sets one successful tick computes. */
  datatype Round = Round(last: set<string>, left: set<string>, removed: set<string>)

  /**
   * After a successful lookup, `last` becomes the resolved set, `left` the
   * previous round's peers missing now, and the removed peers are those that
   * had already left and are still missing.
   */
  function Next(last: set<string>, left: set<string>, addrs: seq<string>): (r: Round)
    ensures r.last == Elements(addrs)
    ensures r.left == last - Elements(addrs)
    ensures r.removed == left - Elements(addrs)
  {
    var next := Elements(addrs);
    Round(next, last - next, left - next)
  }

  /**
   * A peer is removed exactly when it was present two rounds ago and is
   * missing in both of the last two rounds.
   */
  lemma RemovedAfterTwoAbsentRounds(last0: set<string>, left0: set<string>, addrs1: seq<string>, addrs2: seq<string>, p: string)
    ensures var r1 := Next(last0, left0, addrs1);
      var r2 := Next(r1.last, r1.left, addrs2);
      p in r2.removed <==> p in last0 && p !in addrs1 && p !in addrs2
  {
  }

  /** The elements of `s` in some order, each once: Go's iteration order over a map is unspecified. */
  method Enumerate(s: set<string>) returns (r: seq<string>)
    ensures Elements(r) == s && Distinct(r)
  {
    r := [];
    var rest := s;
    while rest != {}
      invariant rest <= s
      invariant Elements(r) == s - rest
      invariant Distinct(r)
      decreases |rest|
    {
      var x :| x in rest;
      assert Elements(r + [x]) == Elements(r) + {x};
      r := r + [x];
      rest := rest - {x};
    }
  }

  /** The members of `peers` absent from `next`, in map-iteration order, each once. */
  method Missing(peers: set<string>, next: set<string>) returns (r: seq<string>)
    ensures Elements(r) == peers - next && Distinct(r)
  {
    var order := Enumerate(peers);
    r := [];
    var i := 0;
    while i < |order|
      invariant 0 <= i <= |order|
      invariant Elements(r) == Elements(order[..i]) - next
      invariant Distinct(r)
    {
      assert order[i] !in order[..i];
      if order[i] !in next {
        assert Elements(r + [order[i]]) == Elements(r) + {order[i]};
        r := r + [order[i]];
      }
      assert order[..i + 1] == order[..i] + [order[i]];
      i := i + 1;
    }
    assert order[..i] == order;
  }

  /** The set of resolved peers and the ones that join, as the first loop of a tick builds them. */
  method Resolve(addrs: seq<string>, last: set<string>) returns (next: set<string>, add: seq<string>)
    ensures next == Elements(addrs) && add == Joined(addrs, last)
  {
    next := {};
    add := [];
    var i := 0;
    while i < |addrs|
      invariant 0 <= i <= |addrs|
      invariant next == Elements(addrs[..i])
      invariant add == Joined(addrs[..i], last)
    {
      var peer := addrs[i];
      ResolvedStep(addrs, i, last);
      next := next + {peer};
      if peer !in last {
        add := add + [peer];
      }
      i := i + 1;
    }
    assert addrs[..i] == addrs;
  }

  /** One more resolved peer joins the resolved set, and joins the cluster if it was not resolved last round. */
  lemma ResolvedStep(addrs: seq<string>, i: nat, last: set<string>)
    requires i < |addrs|
    ensures Elements(addrs[..i + 1]) == Elements(addrs[..i]) + {addrs[i]}
    ensures Joined(addrs[..i + 1], last) == Joined(addrs[..i], last) + (if addrs[i] in last then [] else [addrs[i]])
  {
    assert addrs[..i + 1] == addrs[..i] + [addrs[i]];
    assert addrs[..i + 1][..i] == addrs[..i];
  }

  class DnsDiscovery {
    /** The peers resolved in the previous successful round. */
    var last: set<string>
    /** The peers that were missing in the previous successful round. */
    var left: set<string>

    constructor ()
      ensures last == {} && left == {}
    {
      last := {};
      left := {};
    }

    /**
     * One tick with the lookup's outcome. A failed lookup changes nothing.
     * Otherwise membership receives `Add(add)`, `Left(leave)` and
     * `Remove(remove)` in that order, each only when non-empty.
     */
    method Tick(membership: Cluster.Membership, lookup: Result<seq<string>>) returns (add: seq<string>, leave: seq<string>, remove: seq<string>)
      requires membership.Valid()
      modifies this, membership
      ensures membership.Valid()
      ensures lookup.Err? ==>
        && last == old(last) && left == old(left) && add == leave == remove == []
        && membership.active == old(membership.active) && membership.left == old(membership.left)
      ensures lookup.Ok? ==>
        var r := Next(old(last), old(left), lookup.value);
        && add == Joined(lookup.value, old(last))
        && Elements(leave) == r.left && Distinct(leave)
        && Elements(remove) == r.removed && Distinct(remove)
        && last == r.last && left == r.left
        && Cluster.State(membership.active, membership.left)
           == Cluster.RemoveAll(Cluster.LeaveAll(Cluster.AddAll(
                Cluster.State(old(membership.active), old(membership.left)), add), leave), remove)
    {
      add, leave, remove := [], [], [];
      if lookup.Err? {
        return;
      }
      var next;
      next, add := Resolve(lookup.value, last);
      remove := Missing(left, next);
      leave := Missing(last, next);
      left := Elements(leave);
      last := next;

      if |add| > 0 {
        membership.Add(add);
      }
      if |leave| > 0 {
        membership.Left(leave);
      }
      if |remove| > 0 {
        membership.Remove(remove);
      }
    }
  }
}
