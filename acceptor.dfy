// The Paxos acceptor (paxos/acceptor.go). Each log `Record` is a call into
// a log implementation; its outcome is an input (None for success, or the
// error it returned).
module PaxosAcceptor {
  import opened Outcomes
  import opened PaxosWire

  datatype AcceptorState = AcceptorState(lastPromise: Promise, lastAccept: Proposal)

  /** The state and reply of one `Prepare`. */
  function PrepareStep(st: AcceptorState, req: Request, recordErr: Option<string>): (AcceptorState, Result<Promise>)
  {
    if req.id <= st.lastPromise.id then (st, Ok(EmptyPromise))
    else
      var promise := Promise(req.id, if req.attempt > 1 then Some(st.lastAccept) else None);
      if recordErr.Some? then (st, Err(recordErr.value))
      else (st.(lastPromise := promise), Ok(promise))
  }

  /** The state and reply of one `Accept`. */
  function AcceptStep(st: AcceptorState, proposal: Proposal, recordErr: Option<string>): (AcceptorState, Result<Proposal>)
  {
    if proposal.id < st.lastPromise.id then (st, Ok(EmptyProposal))
    else if recordErr.Some? then (st, Err(recordErr.value))
    else (st.(lastAccept := proposal), Ok(proposal))
  }

  /**
   * A request at or below the last promised ID gets the zero promise; a
   * granted request gets its own ID, carries the last accepted proposal
   * only from the second attempt on, and raises the promised ID; a failed
   * log write changes nothing.
   */
  lemma PrepareOutcomes(st: AcceptorState, req: Request, recordErr: Option<string>)
    ensures var (st', reply) := PrepareStep(st, req, recordErr);
      && st'.lastAccept == st.lastAccept
      && (req.id <= st.lastPromise.id ==> st' == st && reply == Ok(EmptyPromise))
      && (req.id > st.lastPromise.id && recordErr.Some? ==> st' == st && reply.Err?)
      && (req.id > st.lastPromise.id && recordErr.None? ==>
            reply.Ok? && reply.value.id == req.id && st'.lastPromise == reply.value
            && st'.lastPromise.id > st.lastPromise.id
            && (reply.value.accepted.Some? <==> req.attempt > 1)
            && (req.attempt > 1 ==> reply.value.accepted == Some(st.lastAccept)))
  {
  }

  /**
   * A proposal below the promised ID gets the zero proposal; one at or above
   * it is recorded, becomes the last accepted one and is echoed back.
   */
  lemma AcceptOutcomes(st: AcceptorState, p: Proposal, recordErr: Option<string>)
    ensures var (st', reply) := AcceptStep(st, p, recordErr);
      && st'.lastPromise == st.lastPromise
      && (p.id < st.lastPromise.id ==> st' == st && reply == Ok(EmptyProposal))
      && (p.id >= st.lastPromise.id && recordErr.Some? ==> st' == st && reply.Err?)
      && (p.id >= st.lastPromise.id && recordErr.None? ==> st'.lastAccept == p && reply == Ok(p))
  {
  }

  datatype Event =
    | PrepareCall(req: Request, recordErr: Option<string>)
    | AcceptCall(proposal: Proposal, recordErr: Option<string>)

  function Step(st: AcceptorState, e: Event): AcceptorState
  {
    match e
    case PrepareCall(req, err) => PrepareStep(st, req, err).0
    case AcceptCall(p, err) => AcceptStep(st, p, err).0
  }

  function Run(st: AcceptorState, events: seq<Event>): AcceptorState
  {
    if events == [] then st else Step(Run(st, events[..|events| - 1]), events[|events| - 1])
  }

  /** The promised ID never decreases, whatever calls arrive. */
  lemma {:induction false} PromiseNeverDecreases(st: AcceptorState, events: seq<Event>)
    ensures Run(st, events).lastPromise.id >= st.lastPromise.id
  {
    if events != [] {
      PromiseNeverDecreases(st, events[..|events| - 1]);
    }
  }

  /**
   * Once a prepare with ID n has been granted, every later accept with an ID
   * below n is refused with the zero proposal and leaves the acceptor as it was.
   */
  lemma {:induction false} GrantedPromiseBlocksLowerAccepts(st: AcceptorState, before: seq<Event>, req: Request, between: seq<Event>, p: Proposal, err: Option<string>)
    requires req.id > Run(st, before).lastPromise.id
    requires p.id < req.id
    ensures var mid := Run(st, before + [PrepareCall(req, None)] + between);
      AcceptStep(mid, p, err) == (mid, Ok(EmptyProposal))
  {
    var granted := before + [PrepareCall(req, None)];
    assert granted[..|granted| - 1] == before;
    assert Run(st, granted).lastPromise.id == req.id;
    PromiseNeverDecreases(Run(st, granted), between);
    RunAppend(st, granted, between);
  }

  lemma {:induction false} RunAppend(st: AcceptorState, a: seq<Event>, b: seq<Event>)
    ensures Run(st, a + b) == Run(Run(st, a), b)
  {
    if b != [] {
      assert (a + b)[..|a + b| - 1] == a + b[..|b| - 1];
      RunAppend(st, a, b[..|b| - 1]);
    } else {
      assert a + b == a;
    }
  }

  class Acceptor {
    var lastPromise: Promise
    var lastAccept: Proposal
    /** The entries this acceptor has written to its promise log and accepted log. */
    var promiseLog: seq<Promise>
    var acceptedLog: seq<Proposal>

    constructor (lastPromise: Promise, lastAccept: Proposal)
      ensures this.lastPromise == lastPromise && this.lastAccept == lastAccept
      ensures promiseLog == [] && acceptedLog == []
    {
      this.lastPromise := lastPromise;
      this.lastAccept := lastAccept;
      promiseLog := [];
      acceptedLog := [];
    }

    method Prepare(req: Request, recordErr: Option<string>) returns (reply: Result<Promise>)
      modifies this
      ensures (AcceptorState(lastPromise, lastAccept), reply)
           == PrepareStep(AcceptorState(old(lastPromise), old(lastAccept)), req, recordErr)
      ensures acceptedLog == old(acceptedLog)
      ensures promiseLog == if req.id > old(lastPromise).id && recordErr.None? then old(promiseLog) + [reply.value] else old(promiseLog)
    {
      if req.id <= lastPromise.id {
        return Ok(EmptyPromise);
      }
      var promise := Promise(req.id, None);
      if req.attempt > 1 {
        promise := promise.(accepted := Some(lastAccept));
      }
      if recordErr.Some? {
        return Err(recordErr.value);
      }
      promiseLog := promiseLog + [promise];
      lastPromise := promise;
      return Ok(promise);
    }

    method Accept(proposal: Proposal, recordErr: Option<string>) returns (reply: Result<Proposal>)
      modifies this
      ensures (AcceptorState(lastPromise, lastAccept), reply)
           == AcceptStep(AcceptorState(old(lastPromise), old(lastAccept)), proposal, recordErr)
      ensures promiseLog == old(promiseLog)
      ensures acceptedLog == if proposal.id >= old(lastPromise).id && recordErr.None? then old(acceptedLog) + [proposal] else old(acceptedLog)
    {
      if proposal.id < lastPromise.id {
        return Ok(EmptyProposal);
      }
      if recordErr.Some? {
        return Err(recordErr.value);
      }
      acceptedLog := acceptedLog + [proposal];
      lastAccept := proposal;
      return Ok(proposal);
    }
  }

  /**
   * `NewAcceptor`: the promise log's last entry is read first, then the
   * accepted log's; either read failing fails construction. An empty log
   * leaves the corresponding zero value.
   */
  method NewAcceptor(promiseLast: Result<Option<Promise>>, acceptedLast: Result<Option<Proposal>>) returns (r: Result<Acceptor>)
    ensures promiseLast.Err? ==> r == Err(promiseLast.error)
    ensures promiseLast.Ok? && acceptedLast.Err? ==> r == Err(acceptedLast.error)
    ensures promiseLast.Ok? && acceptedLast.Ok? ==>
      && r.Ok? && fresh(r.value)
      && r.value.lastPromise == (if promiseLast.value.Some? then promiseLast.value.value else EmptyPromise)
      && r.value.lastAccept == (if acceptedLast.value.Some? then acceptedLast.value.value else EmptyProposal)
  {
    if promiseLast.Err? {
      return Err(promiseLast.error);
    }
    if acceptedLast.Err? {
      return Err(acceptedLast.error);
    }
    var p := if promiseLast.value.Some? then promiseLast.value.value else EmptyPromise;
    var a := if acceptedLast.value.Some? then acceptedLast.value.value else EmptyProposal;
    var acceptor := new Acceptor(p, a);
    return Ok(acceptor);
  }
}
