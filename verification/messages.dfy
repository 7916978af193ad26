/**
  The records a sharded PBFT peer exchanges and stores: the consensus message
  (used both as the in-flight request and as a committed ledger record), the
  consensus phase, and the envelope placed on the outbound channel.
 */
module Messages {

  /** A peer's identity, the key of every membership map. */
  type PeerId = string

  /** The conventional option type, standing in for a nullable pointer. */
  datatype Option<T> = None | Some(value: T)

  /** Consensus phases of a PBFT peer; `Ideal` is the idle phase between requests. */
  datatype Phase = Ideal | PrePrepare | Prepare | PrepareWait | Commit | CommitWait

  /**
    A PBFT message. `details` stands for every field of the message that this
    peer copies but never inspects (client, creator, operation, operands, ...).
   */
  datatype Msg = Msg(
    sequenceNumber: int,
    view: int,
    round: int,
    result: int,
    byzantine: bool,
    defeated: bool,
    details: string)

  /** The message a default-constructed request holds: every field zero, false or empty. */
  const EmptyMessage: Msg := Msg(0, 0, 0, 0, false, false, "")

  /** An outbound envelope: a fresh packet id, source, target and the carried message. */
  datatype Packet = Packet(id: nat, source: PeerId, target: PeerId, body: Msg)
}
