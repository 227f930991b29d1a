// The Paxos message records (paxos/wire.go).
module PaxosWire {
  import opened Bytes
  import opened Outcomes

  /** Sent in the PREPARE phase: a proposal ID and the attempt number. */
  datatype Request = Request(id: u64, attempt: u64)

  /** A value proposed under an ID. */
  datatype Proposal = Proposal(id: u64, value: seq<byte>)

  /** The answer to PREPARE; `accepted` is the nil-able pointer to the last accepted proposal. */
  datatype Promise = Promise(id: u64, accepted: Option<Proposal>)

  /** The zero values Go returns as `&Proposal{}` and `&Promise{}`. */
  const EmptyProposal := Proposal(0, [])
  const EmptyPromise := Promise(0, None)
}
