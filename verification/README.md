# Sharded PBFT peer — a verified Dafny model

This project models one peer of the BlockGuard sharded PBFT simulation
(`PBFTPeer_Sharded`). The peer belongs to a long-lived *group* and to a
rotating *committee*. Each round it runs the consensus phases. It then
arbitrates the in-flight request against the commit evidence it collected:
it either appends the request to its ledger, marked honest or *defeated*
(captured by byzantine replicas), or it calls for a view change. A peer that
committed leaves its committee. It can also broadcast a message to every
committee member.

Modules:

- `Messages`: the PBFT message record, the consensus phase, the outbound packet.
- `Membership`: the group and committee maps. A `std::map<std::string, Peer*>`
  is an ordered tree, so it is modelled as its in-order list of entries, with
  keys strictly ascending under `std::string`'s lexicographic order (`LexLess`).
  `AsMap` gives the map it represents, and peer pointers become opaque `Handle`s.
- `Arbitration`: the byzantine-commit count, the decision table and the ledger
  update, as pure functions, plus the counting loop as a method proved against them.
- `Outbound`: the envelopes a broadcast emits.
- `ShardedPeer`: the class `Peer`, whose fields the operations update in place.
  `Valid()` says the registries are ordered maps, that the peer is not a key
  of its own group or committee, and that every packet on the channel carries
  an id below the id generator's next one.

Collaborators whose code is not part of this model become parameters:

- the fault threshold `faultyPeers()` is the argument `faulty` (any integer; no formula is assumed);
- `findPrimary` is the argument `elected`;
- the phase steps `collectMessages` … `waitCommit` are the argument `run`, a `PhaseRun`.
  In both cases they first broadcast the messages `run.sent` to the committee, through `Broadcast`.
  Then either they stop in some phase with some request, result and commit log, possibly with a
  timeout that requests a view change (`Waiting`), or they reach the commit step (`Committing`),
  which calls `CommitRequest` with the engine's threshold;
- `viewChange(_committeeMembers)` is recorded as an event: the committee it was called with is appended to `viewChanges`;
- `makePckId` is a counter (`MakePacketId`); the id it returns is carried by no packet already on the channel;
- `clearCommittee` empties the committee map; `cleanLogs` empties the commit log.

## Model

| member | source | states |
|---|---|---|
| Membership.LexLessIrreflexive | BlockGuard/PBFTPeer_Sharded.cpp:75 | the key order of the maps is strict: no identity precedes itself |
| Membership.SortedDistinct | BlockGuard/PBFTPeer_Sharded.cpp:73-87 | an ordered map's traversal never visits the same key twice |
| Membership.SortedSize | BlockGuard/PBFTPeer_Sharded.cpp:73-87 | an ordered map's traversal has exactly as many distinct keys as entries |
| Membership.MapSize | BlockGuard/PBFTPeer_Sharded.cpp:73-87 | the map a registry represents has one binding per traversed entry |
| Membership.IdsOfSorted | BlockGuard/PBFTPeer_Sharded.cpp:73-87 | the keys of an ordered map's traversal are exactly the map's keys, ascending, pairwise distinct, as many as the map's size |
| Membership.ListIds | BlockGuard/PBFTPeer_Sharded.cpp:74-78 | the push_back loop returns the i-th map key at position i: exactly the map's keys, ascending, pairwise distinct, as many as the map's size |
| Arbitration.ByzantineCommits | BlockGuard/PBFTPeer_Sharded.cpp:48-57 | the byzantine-commit count lies between 0 and the log's length, and is 0 exactly when no entry matches on sequence number, view and result with the byzantine flag set |
| Arbitration.ByzantineCommitsCountsPositions | BlockGuard/PBFTPeer_Sharded.cpp:48-57 | the count equals the number of log positions holding a matching byzantine entry |
| Arbitration.ByzantineCommitsAppend | BlockGuard/PBFTPeer_Sharded.cpp:49-57 | the count over a log received in two parts is the sum of the two counts |
| Arbitration.CountByzantine | BlockGuard/PBFTPeer_Sharded.cpp:48-57 | the counter loop over the commit log computes exactly the byzantine-commit count |
| Arbitration.Decide | BlockGuard/PBFTPeer_Sharded.cpp:58-66 | a request is finalized exactly when "count reaches the threshold" agrees with the request's own byzantine flag, and a finalized request is defeated exactly when it is byzantine |
| Arbitration.Arbitrate | BlockGuard/PBFTPeer_Sharded.cpp:48-66 | honest finalize iff count < threshold and the request is honest; defeated finalize iff count >= threshold and the request is byzantine; view change iff one of the two other combinations holds |
| Arbitration.LedgerAfter | BlockGuard/PBFTPeer_Sharded.cpp:58-66 | on finalize exactly one record is appended after the untouched old ledger; on view change the ledger is unchanged |
| Arbitration.LedgerGrowth | BlockGuard/PBFTPeer_Sharded.cpp:58-66 | an arbitration never shrinks the ledger, keeps it as a prefix, grows it by at most one, and grows it exactly when the evidence agrees with the request's flag |
| Arbitration.ThresholdOneScenario | BlockGuard/PBFTPeer_Sharded.cpp:58-66 | with threshold 1: an honest request with no byzantine evidence commits as honest, with two byzantine commits it causes a view change, and a byzantine request with two byzantine commits commits as defeated |
| Outbound.EnvelopeTargets | BlockGuard/PBFTPeer_Sharded.cpp:29-38 | over an ordered committee the targets ascend, are pairwise distinct, are exactly the committee's keys, and none is the sender when the sender is not a key; packet ids are distinct |
| Outbound.BroadcastsShape | BlockGuard/PBFTPeer_Sharded.cpp:29-38 | several broadcasts to one committee emit one envelope per member and message, with consecutive ids; each comes from the sender, carries one of the messages and goes to a committee key, never to the sender when it is not a key |
| ShardedPeer.Peer.constructor | BlockGuard/PBFTPeer_Sharded.cpp:11-18 | a new peer has group and committee ids -1 and empty group and committee maps |
| ShardedPeer.Peer.MakePacketId | BlockGuard/PBFTPeer_Sharded.cpp:32 | the returned id is carried by no packet on the channel, the counter advances by one, and every channel id stays below the counter |
| ShardedPeer.Peer.Broadcast | BlockGuard/PBFTPeer_Sharded.cpp:29-38 | the outbound channel becomes its old contents followed by exactly the committee's envelopes in key order; its frame lets it change only the channel and the packet-id counter, so membership, ledger and round state are unchanged |
| ShardedPeer.Peer.CommitRequest | BlockGuard/PBFTPeer_Sharded.cpp:40-71 | the ledger becomes the arbitration's ledger update of the old one; a view change over the old committee is recorded exactly on the view-change outcome; afterwards the phase is idle, the result 0, the request the default message and the commit log empty; its frame lets it change only the ledger, the view-change record and the round-scoped fields |
| ShardedPeer.Peer.GroupMembers | BlockGuard/PBFTPeer_Sharded.cpp:73-79 | returns exactly the group map's keys, ascending, as many as the map's size, never the peer itself |
| ShardedPeer.Peer.CommitteeMembers | BlockGuard/PBFTPeer_Sharded.cpp:81-87 | returns exactly the committee map's keys, ascending, as many as the map's size, never the peer itself |
| ShardedPeer.Peer.ClearCommittee | BlockGuard/PBFTPeer_Sharded.cpp:103 | the committee map is empty afterwards |
| ShardedPeer.Peer.BroadcastAll | BlockGuard/PBFTPeer_Sharded.cpp:29-38 | broadcasting several messages in turn appends exactly their envelopes, one broadcast after the other, and advances the id counter by their number |
| ShardedPeer.Peer.SettlePhases | BlockGuard/PBFTPeer_Sharded.cpp:94-99 | a waiting run leaves the ledger alone, installs the engine's phase, request, result and commit log, and records a view change over the committee exactly on timeout; a committing run ends with the commit step's ledger update, view-change record and reset |
| ShardedPeer.Peer.RunPhases | BlockGuard/PBFTPeer_Sharded.cpp:94-99 | the phase steps append exactly the envelopes of their broadcasts to the committee to the channel, then leave the state SettlePhases gives |
| ShardedPeer.Peer.PerformComputation | BlockGuard/PBFTPeer_Sharded.cpp:89-106 | a primary is resolved only when none is cached; the round counter rises by exactly one; the ledger grows by 0 or 1 keeping its prefix; the committee is emptied exactly when the ledger grew and kept otherwise; the channel gains exactly the round's broadcasts to the committee held before the round and the packet-id counter advances by their number; a committing round's ledger, view changes and reset state are those of the commit step |

## Left out

- `printTo` (column formatting to a stream) and the two print flags the constructor sets: reporting only, no protocol meaning.
- The copy constructor and `operator=`: plain field copies; with value-typed fields they are structural equality.
- The inherited state of the base PBFT peer (`_ledger`, `_outStream`, `_commitLog`, the round, phase, request, view and primary) is set up by a base constructor that is not part of this model. The constructor assumes that state starts empty, at zero and idle.
- The default message `PBFT_Message()` is defined in a header that is not part of this model; `EmptyMessage` assumes every field zero, false or empty. The message fields the peer never inspects are folded into one opaque `details` field. The result is modelled as an integer, since the peer resets it to `0`.
- The base-class primitives `collectMessages`, `prePrepare`, `prepare`, `waitPrepare`, `commit`, `waitCommit`, `findPrimary`, `faultyPeers`, `viewChange`, `cleanLogs` and `makePckId` are not part of this model. They become parameters or recorded effects, as described above. Any further effect they have (a view change that moves the view or the primary, the other phase logs `cleanLogs` empties) is not modelled.
- ShardedPeer.Peer.ClearCommittee: its body is not part of this model. It is modelled as emptying the committee map only. It leaves the cached primary as it was; this class does not show whether the real `clearCommittee` also resets it.
- ShardedPeer.Peer.PerformComputation: `cleanLogs` runs only in the commit step, so after a waiting round the commit log holds whatever the phase steps left.
- ShardedPeer.Peer.PerformComputation: the round counter and the ledger size are unbounded integers here. The C++ class keeps the round in an `int` and narrows the ledger's `size()` to an `int` (line 93), so wrap-around past 2^31 - 1 (line 105) is not modelled.
- ShardedPeer.Peer.RunPhases: the phase steps' broadcasts are given as a list of messages sent to the committee, and a waiting round's engine view change as one flag. Other packets the phase steps might emit (for instance to a single peer), and effects of a view change beyond recording it, are not modelled.
- Adding group or committee members is done by a sharding authority outside this class; the registries are public fields that such a caller sets, subject to `Valid()`.
- Packet delivery, latency and loss, and whatever consumes the outbound channel.
- Membership maps hold live peer pointers in the C++ class; here they hold opaque handles, so aliasing between peers is not modelled.
