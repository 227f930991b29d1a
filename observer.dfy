// The Paxos observer's event loop (paxos/observer.go, `Observer.Start`):
// each arriving vote updates the tallies and may record the proposal, and
// each membership change updates the set of watched acceptors. The
// goroutines and channels are not modelled; each event is a method call,
// and the log's and the membership's answers are inputs.
module PaxosObserver {
  import opened Bytes
  import opened Outcomes
  import opened PaxosWire
  import opened Discovery

  /** The tallies after `member` votes for proposal `id`: a set per ID, so a member counts once. */
  function Tally(tallies: map<u64, set<string>>, id: u64, member: string): (r: map<u64, set<string>>)
    ensures id in r && member in r[id]
    ensures r.Keys == tallies.Keys + {id}
    ensures forall i :: i in tallies && i != id ==> r[i] == tallies[i]
    ensures forall m :: m in r[id] <==> m == member || (id in tallies && m in tallies[id])
  {
    tallies[id := (if id in tallies then tallies[id] else {}) + {member}]
  }

  /** A second vote by the same member for the same ID changes nothing. */
  lemma TallyIdempotent(tallies: map<u64, set<string>>, id: u64, member: string)
    ensures Tally(Tally(tallies, id, member), id, member) == Tally(tallies, id, member)
  {
  }

  /** Starting from no tallies, an ID's tally is the set of members who voted for it, never more than the votes. */
  lemma {:induction false} TallyCountsDistinctVoters(id: u64, voters: seq<string>)
    ensures id in TallyAll(map[], id, voters) ==> |TallyAll(map[], id, voters)[id]| <= |voters|
    ensures id in TallyAll(map[], id, voters) ==> TallyAll(map[], id, voters)[id] == Elements(voters)
    decreases |voters|
  {
    if |voters| > 0 {
      TallyCountsDistinctVoters(id, voters[..|voters| - 1]);
      var front := voters[..|voters| - 1];
      assert Elements(voters) == Elements(front) + {voters[|voters| - 1]} by {
        assert voters == front + [voters[|voters| - 1]];
      }
      CardElements(front);
    } else {
      assert Elements(voters) == {};
    }
  }

  lemma {:induction false} CardElements(s: seq<string>)
    ensures |Elements(s)| <= |s|
  {
    if |s| > 0 {
      var front := s[..|s| - 1];
      CardElements(front);
      assert Elements(s) == Elements(front) + {s[|s| - 1]} by {
        assert s == front + [s[|s| - 1]];
      }
    } else {
      assert Elements(s) == {};
    }
  }

  /** Votes for one ID from `voters`, in order. */
  function TallyAll(tallies: map<u64, set<string>>, id: u64, voters: seq<string>): map<u64, set<string>>
  {
    if |voters| == 0 then tallies
    else Tally(TallyAll(tallies, id, voters[..|voters| - 1]), id, voters[|voters| - 1])
  }

  class Observer {
    var tallies: map<u64, set<string>>
    var tracked: set<string>
    var lastAccepted: Proposal
    var majority: int
    /** Every `Log.Record` call issued, in order. */
    var records: seq<Proposal>

    /**
     * `Start` before its loop: the last recorded proposal (or `&Proposal{}`
     * when the log is empty) and the membership's majority.
     */
    constructor(last: Option<Proposal>, majority: int)
      ensures tallies == map[] && tracked == {} && records == []
      ensures lastAccepted == (if last.Some? then last.value else EmptyProposal)
      ensures this.majority == majority
    {
      tallies := map[];
      tracked := {};
      lastAccepted := if last.Some? then last.value else EmptyProposal;
      this.majority := majority;
      records := [];
    }

    /**
     * A vote from `member` for `proposal`. Once the distinct voters for its
     * ID reach the majority the proposal is recorded; when recording
     * succeeds, `lastAccepted` moves to it only if its ID is larger.
     */
    method OnVote(member: string, proposal: Proposal, recordErr: Option<string>)
      modifies this
      ensures tallies == Tally(old(tallies), proposal.id, member)
      ensures tracked == old(tracked) && majority == old(majority)
      ensures records == old(records) + (if majority <= |tallies[proposal.id]| then [proposal] else [])
      ensures lastAccepted ==
        if majority <= |tallies[proposal.id]| && recordErr.None? && old(lastAccepted).id < proposal.id
        then proposal else old(lastAccepted)
      ensures lastAccepted.id >= old(lastAccepted).id
    {
      var id := proposal.id;
      if id !in tallies {
        tallies := tallies[id := {}];
      }
      tallies := tallies[id := tallies[id] + {member}];
      if majority <= |tallies[id]| {
        records := records + [proposal];
        if recordErr.Some? {
          return;
        }
        if lastAccepted.id < id {
          lastAccepted := Proposal(id, proposal.value);
        }
      }
    }

    /**
     * A membership change: start watching each active member not yet
     * watched (returned in order), stop watching left and removed members,
     * then take the membership's new majority.
     */
    method OnChange(active: seq<string>, left: seq<string>, removed: seq<string>, newMajority: int)
      returns (started: seq<string>)
      modifies this
      ensures tracked == old(tracked) + Elements(active) - Elements(left) - Elements(removed)
      ensures Elements(started) == Elements(active) - old(tracked) && Distinct(started)
      ensures majority == newMajority
      ensures tallies == old(tallies) && lastAccepted == old(lastAccepted) && records == old(records)
    {
      started := [];
      for i := 0 to |active|
        invariant tracked == old(tracked) + Elements(active[..i])
        invariant Elements(started) == Elements(active[..i]) - old(tracked) && Distinct(started)
        invariant tallies == old(tallies) && lastAccepted == old(lastAccepted) && records == old(records)
      {
        assert Elements(active[..i + 1]) == Elements(active[..i]) + {active[i]} by {
          assert active[..i + 1] == active[..i] + [active[i]];
        }
        if active[i] !in tracked {
          assert Elements(started + [active[i]]) == Elements(started) + {active[i]};
          started := started + [active[i]];
          tracked := tracked + {active[i]};
        }
      }
      assert active[..|active|] == active;
      var kept := tracked;
      for i := 0 to |left|
        invariant tracked == kept - Elements(left[..i])
        invariant tallies == old(tallies) && lastAccepted == old(lastAccepted) && records == old(records)
      {
        assert Elements(left[..i + 1]) == Elements(left[..i]) + {left[i]} by {
          assert left[..i + 1] == left[..i] + [left[i]];
        }
        if left[i] in tracked {
          tracked := tracked - {left[i]};
        }
      }
      assert left[..|left|] == left;
      kept := tracked;
      for i := 0 to |removed|
        invariant tracked == kept - Elements(removed[..i])
        invariant tallies == old(tallies) && lastAccepted == old(lastAccepted) && records == old(records)
      {
        assert Elements(removed[..i + 1]) == Elements(removed[..i]) + {removed[i]} by {
          assert removed[..i + 1] == removed[..i] + [removed[i]];
        }
        if removed[i] in tracked {
          tracked := tracked - {removed[i]};
        }
      }
      assert removed[..|removed|] == removed;
      majority := newMajority;
    }
  }

  /**
   * `Start`: a failure to read the last recorded proposal is returned
   * before anything else happens.
   */
  method Start(last: Result<Option<Proposal>>, majority: int) returns (r: Result<Observer>)
    ensures last.Err? ==> r == Err(last.error)
    ensures last.Ok? ==>
      && r.Ok? && fresh(r.value) && r.value.tracked == {} && r.value.tallies == map[]
      && r.value.majority == majority
      && r.value.lastAccepted == (if last.value.Some? then last.value.value else EmptyProposal)
  {
    if last.Err? {
      return Err(last.error);
    }
    var o := new Observer(last.value, majority);
    return Ok(o);
  }
}
