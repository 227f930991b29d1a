// Paxos configuration checking and construction (paxos/paxos.go). A
// configuration is modelled by which of its fields are set (non-nil).
module PaxosConfig {
  import opened Outcomes
  import opened PaxosWire
  import PaxosAcceptor

  datatype Field = Clock | IdGenerator | PromiseLog | AcceptedLog | RecordedLog | AcceptorDialer | ObserverDialer

  /** The fields `Validate` insists on, in the order it checks them. */
  const Required: seq<Field> := [IdGenerator, PromiseLog, AcceptedLog, RecordedLog, AcceptorDialer, ObserverDialer]

  /** The error text `Validate` returns for a missing field, as written (the accepted log reuses the promise log's text). */
  function Message(f: Field): string
  {
    match f
    case IdGenerator => "missing id generator"
    case PromiseLog => "missing promise log"
    case AcceptedLog => "missing promise log"
    case RecordedLog => "missing recorded log"
    case AcceptorDialer => "missing acceptor dialer"
    case ObserverDialer => "missing observer dialer"
    case Clock => "missing clock"
  }

  /** What `Validate` returns once the clock has been filled in: the first required field missing, in `Required` order. */
  function ValidationError(present: set<Field>): (r: Option<string>)
  {
    if IdGenerator !in present then Some(Message(IdGenerator))
    else if PromiseLog !in present then Some(Message(PromiseLog))
    else if AcceptedLog !in present then Some(Message(AcceptedLog))
    else if RecordedLog !in present then Some(Message(RecordedLog))
    else if AcceptorDialer !in present then Some(Message(AcceptorDialer))
    else if ObserverDialer !in present then Some(Message(ObserverDialer))
    else None
  }

  /**
   * A configuration validates exactly when every required field is set;
   * otherwise the error is the message of a missing field, and of the
   * first one missing in `Required` order.
   */
  lemma ValidationErrorMeaning(present: set<Field>)
    ensures ValidationError(present).None? <==> (forall i :: 0 <= i < |Required| ==> Required[i] in present)
    ensures ValidationError(present).Some? ==> exists i :: (0 <= i < |Required| && Required[i] !in present
      && ValidationError(present).value == Message(Required[i])
      && forall j :: 0 <= j < i ==> Required[j] in present)
  {
    if ValidationError(present).None? {
      forall i | 0 <= i < |Required|
        ensures Required[i] in present
      {
        assert Required[i] in {IdGenerator, PromiseLog, AcceptedLog, RecordedLog, AcceptorDialer, ObserverDialer};
      }
    } else {
      var i := if IdGenerator !in present then 0
        else if PromiseLog !in present then 1
        else if AcceptedLog !in present then 2
        else if RecordedLog !in present then 3
        else if AcceptorDialer !in present then 4
        else 5;
      assert Required[i] !in present && ValidationError(present).value == Message(Required[i]);
      assert forall j :: 0 <= j < i ==> Required[j] in present;
    }
  }

  /**
   * As written, a configuration that lacks only the accepted log is told
   * that its promise log is missing, the same text as when the promise log
   * itself is missing.
   */
  lemma MissingAcceptedLogMisreported()
    ensures ValidationError({Clock, IdGenerator, PromiseLog, RecordedLog, AcceptorDialer, ObserverDialer}) == Some("missing promise log")
    ensures ValidationError({Clock, IdGenerator, AcceptedLog, RecordedLog, AcceptorDialer, ObserverDialer}) == Some("missing promise log")
  {
  }

  /** The messages evidently intended: each field named by its own text. */
  function IntendedMessage(f: Field): string
  {
    match f
    case AcceptedLog => "missing accepted log"
    case _ => Message(f)
  }

  /** With the intended texts, the error names the missing field unambiguously. */
  lemma IntendedMessagesDistinct(f: Field, g: Field)
    requires f != g
    ensures IntendedMessage(f) != IntendedMessage(g)
  {
    var mf, mg := IntendedMessage(f), IntendedMessage(g);
    assert mf[8] != mg[8] || mf[9] != mg[9] || mf[10] != mg[10] || |mf| != |mg|;
  }

  class Config {
    /** The fields that are set (non-nil). */
    var present: set<Field>

    constructor(present: set<Field>)
      ensures this.present == present
    {
      this.present := present;
    }

    /** `Validate`: fill in a real clock when none is set, then report the first missing field. */
    method Validate() returns (err: Option<string>)
      modifies this
      ensures present == old(present) + {Clock}
      ensures err == ValidationError(present)
    {
      if Clock !in present {
        present := present + {Clock};
      }
      if IdGenerator !in present {
        return Some("missing id generator");
      } else if PromiseLog !in present {
        return Some("missing promise log");
      } else if AcceptedLog !in present {
        return Some("missing promise log");
      } else if RecordedLog !in present {
        return Some("missing recorded log");
      } else if AcceptorDialer !in present {
        return Some("missing acceptor dialer");
      } else if ObserverDialer !in present {
        return Some("missing observer dialer");
      }
      return None;
    }
  }

  /** A participant: the acceptor built from the logs, and the configuration fields it was given. */
  class Paxos {
    const acceptor: PaxosAcceptor.Acceptor
    const fields: set<Field>

    constructor(acceptor: PaxosAcceptor.Acceptor, fields: set<Field>)
      ensures this.acceptor == acceptor && this.fields == fields
    {
      this.acceptor := acceptor;
      this.fields := fields;
    }
  }

  /** What `New` ends with; calling `Last` on a nil log is a Go panic. */
  datatype Built = Built(paxos: Paxos) | Failed(error: string) | NilLogPanic

  /**
   * `New`: only the acceptor is built, from the logs' last entries; the
   * configuration is not validated, so other missing fields go unnoticed.
   */
  method New(cfg: Config, promiseLast: Result<Option<Promise>>, acceptedLast: Result<Option<Proposal>>) returns (r: Built)
    ensures PromiseLog !in cfg.present ==> r == NilLogPanic
    ensures PromiseLog in cfg.present && promiseLast.Err? ==> r == Failed(promiseLast.error)
    ensures PromiseLog in cfg.present && promiseLast.Ok? && AcceptedLog !in cfg.present ==> r == NilLogPanic
    ensures PromiseLog in cfg.present && AcceptedLog in cfg.present ==>
      (r.Failed? <==> promiseLast.Err? || acceptedLast.Err?)
    ensures r.Built? ==>
      && fresh(r.paxos) && fresh(r.paxos.acceptor) && r.paxos.fields == cfg.present
      && r.paxos.acceptor.lastPromise == (if promiseLast.value.Some? then promiseLast.value.value else EmptyPromise)
      && r.paxos.acceptor.lastAccept == (if acceptedLast.value.Some? then acceptedLast.value.value else EmptyProposal)
  {
    if PromiseLog !in cfg.present {
      return NilLogPanic;
    }
    if promiseLast.Ok? && AcceptedLog !in cfg.present {
      return NilLogPanic;
    }
    var acceptor := PaxosAcceptor.NewAcceptor(promiseLast, acceptedLast);
    if acceptor.Err? {
      return Failed(acceptor.error);
    }
    var p := new Paxos(acceptor.value, cfg.present);
    return Built(p);
  }
}
