// The Paxos proposer (paxos/proposer.go). The ID generator's and the
// acceptor's answers for each attempt are inputs; the backoff retry around
// `Propose` is not modelled, so one call is one try.
module PaxosProposer {
  import opened Bytes
  import opened Outcomes
  import opened PaxosWire

  /** The generator's answer and the acceptor's PREPARE reply on one attempt. */
  datatype Attempt = Attempt(next: Result<u64>, reply: Result<Promise>)

  /** A finished call, a failed one, or one still looping when the given answers run out. */
  datatype Outcome<T> = Done(value: T) | Failed(error: string) | Unfinished

  const AttemptLimit := 0x1_0000_0000_0000_0000 - 1

  /** The loop of `prepare` from attempt `k + 1` on: its outcome and the requests it sends. */
  function PrepareFrom(attempts: seq<Attempt>, k: nat): (Outcome<Promise>, seq<Request>)
    requires k <= |attempts| <= AttemptLimit
    decreases |attempts| - k
  {
    if k == |attempts| then (Unfinished, [])
    else match attempts[k].next
      case Err(e) => (Failed(e), [])
      case Ok(id) =>
        var req := Request(id, k + 1);
        match attempts[k].reply
        case Err(e) => (Failed(e), [req])
        case Ok(p) =>
          if p.id == id then (Done(p), [req])
          else var rest := PrepareFrom(attempts, k + 1); (rest.0, [req] + rest.1)
  }

  /** One step of the loop: what attempt `k + 1` sends, and whether the loop goes on. */
  lemma PrepareStep(attempts: seq<Attempt>, k: nat)
    requires k < |attempts| <= AttemptLimit
    ensures attempts[k].next.Err? ==> PrepareFrom(attempts, k).1 == []
    ensures attempts[k].next.Ok? ==>
      var req := Request(attempts[k].next.value, k + 1);
      if attempts[k].reply.Ok? && attempts[k].reply.value.id != req.id
      then PrepareFrom(attempts, k) == (PrepareFrom(attempts, k + 1).0, [req] + PrepareFrom(attempts, k + 1).1)
      else PrepareFrom(attempts, k).1 == [req]
  {
  }

  /**
   * The `j`-th request sent from attempt `k + 1` on is numbered k + j + 1
   * and carries the ID generated for it; every attempt before the last
   * was answered with a promise for another ID.
   */
  lemma {:induction false} PrepareRequest(attempts: seq<Attempt>, k: nat, j: nat)
    requires k <= |attempts| <= AttemptLimit
    requires j < |PrepareFrom(attempts, k).1|
    ensures k + j < |attempts|
    ensures attempts[k + j].next.Ok? && PrepareFrom(attempts, k).1[j] == Request(attempts[k + j].next.value, k + j + 1)
    ensures j < |PrepareFrom(attempts, k).1| - 1 ==>
      attempts[k + j].reply.Ok? && attempts[k + j].reply.value.id != attempts[k + j].next.value
    decreases j
  {
    PrepareStep(attempts, k);
    if j > 0 {
      PrepareRequest(attempts, k + 1, j - 1);
    }
  }

  /**
   * A promise is returned only for the ID generated on the last attempt,
   * and it is that attempt's reply; the loop is unfinished only when every
   * given attempt was made.
   */
  lemma {:induction false} PrepareResult(attempts: seq<Attempt>, k: nat)
    requires k <= |attempts| <= AttemptLimit
    ensures var r := PrepareFrom(attempts, k);
      && k + |r.1| <= |attempts|
      && (r.0.Done? ==> |r.1| > 0 && r.0.value.id == r.1[|r.1| - 1].id && attempts[k + |r.1| - 1].reply == Ok(r.0.value))
      && (r.0.Unfinished? ==> k + |r.1| == |attempts|)
    decreases |attempts| - k
  {
    if k < |attempts| {
      PrepareStep(attempts, k);
      if attempts[k].next.Ok? && attempts[k].reply.Ok? && attempts[k].reply.value.id != attempts[k].next.value {
        PrepareResult(attempts, k + 1);
        var rest := PrepareFrom(attempts, k + 1).1;
        if PrepareFrom(attempts, k + 1).0.Done? {
          assert PrepareFrom(attempts, k).1[|rest|] == rest[|rest| - 1];
        }
      }
    }
  }

  /** `prepare`: loop over attempts until a promise for the generated ID arrives or a call fails. */
  method Prepare(attempts: seq<Attempt>) returns (outcome: Outcome<Promise>, requests: seq<Request>)
    requires |attempts| <= AttemptLimit
    ensures (outcome, requests) == PrepareFrom(attempts, 0)
  {
    requests := [];
    var attempt := 1;
    assert requests + PrepareFrom(attempts, 0).1 == PrepareFrom(attempts, 0).1;
    while attempt <= |attempts|
      invariant 1 <= attempt <= |attempts| + 1
      invariant PrepareFrom(attempts, 0) == (PrepareFrom(attempts, attempt - 1).0, requests + PrepareFrom(attempts, attempt - 1).1)
    {
      var nextID := attempts[attempt - 1].next;
      if nextID.Err? {
        assert requests + [] == requests;
        return Failed(nextID.error), requests;
      }
      var req := Request(nextID.value, attempt);
      var before := requests;
      requests := requests + [req];
      var promise := attempts[attempt - 1].reply;
      if promise.Err? {
        return Failed(promise.error), requests;
      }
      if promise.value.id == nextID.value {
        return Done(promise.value), requests;
      }
      assert before + ([req] + PrepareFrom(attempts, attempt).1) == requests + PrepareFrom(attempts, attempt).1;
      attempt := attempt + 1;
    }
    assert requests + [] == requests;
    return Unfinished, requests;
  }

  /** The value to propose: the promised proposal's value when one came back non-empty, else our own. */
  function ChooseValue(promise: Promise, own: seq<byte>): (v: seq<byte>)
    ensures promise.accepted.Some? && |promise.accepted.value.value| > 0 ==> v == promise.accepted.value.value
    ensures !(promise.accepted.Some? && |promise.accepted.value.value| > 0) ==> v == own
  {
    if promise.accepted.Some? && |promise.accepted.value.value| > 0 then promise.accepted.value.value else own
  }

  /** One try of `Propose`: the proposal sent to ACCEPT, and the value the acceptor echoes. */
  function Proposed(value: seq<byte>, attempts: seq<Attempt>, acceptor: Proposal -> Result<Proposal>): Outcome<seq<byte>>
    requires |attempts| <= AttemptLimit
  {
    match PrepareFrom(attempts, 0).0
    case Failed(e) => Failed(e)
    case Unfinished => Unfinished
    case Done(promise) =>
      match acceptor(Proposal(promise.id, ChooseValue(promise, value)))
      case Err(e) => Failed(e)
      case Ok(p) => Done(p.value)
  }

  method Propose(value: seq<byte>, attempts: seq<Attempt>, acceptor: Proposal -> Result<Proposal>) returns (outcome: Outcome<seq<byte>>)
    requires |attempts| <= AttemptLimit
    ensures outcome == Proposed(value, attempts, acceptor)
  {
    var prepared, _ := Prepare(attempts);
    if prepared.Failed? {
      return Failed(prepared.error);
    }
    if prepared.Unfinished? {
      return Unfinished;
    }
    var promise := prepared.value;
    var accepted := value;
    if promise.accepted.Some? && |promise.accepted.value.value| > 0 {
      accepted := promise.accepted.value.value;
    }
    var proposal := acceptor(Proposal(promise.id, accepted));
    if proposal.Err? {
      return Failed(proposal.error);
    }
    accepted := proposal.value.value;
    return Done(accepted);
  }

  /**
   * With one acceptor that promises the first generated ID with nothing
   * accepted and echoes what it is asked to accept, the proposed value is
   * returned.
   */
  lemma CooperativeAcceptor(value: seq<byte>, id: u64)
    ensures Proposed(value, [Attempt(Ok(id), Ok(Promise(id, None)))], p => Ok(p)) == Done(value)
  {
  }

  /**
   * A value already accepted by the acceptor (and not empty) replaces ours:
   * what an acceptor that keeps its word returns is the earlier value.
   */
  lemma AcceptedValueWins(value: seq<byte>, id: u64, earlier: Proposal)
    requires |earlier.value| > 0
    ensures Proposed(value, [Attempt(Ok(id), Ok(Promise(id, Some(earlier))))], p => Ok(p)) == Done(earlier.value)
  {
  }
}
