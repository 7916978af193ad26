/**
  One peer of a sharded PBFT network: its membership registries, ledger,
  outbound channel and round-scoped consensus state, and the operations that
  broadcast to the committee, arbitrate a commit, list the members and run
  one round.
 */
module ShardedPeer {
  import opened Messages
  import opened Membership
  import opened Arbitration
  import opened Outbound

  /**
    What the consensus engine's phase steps (message collection, pre-prepare,
    prepare, wait-prepare, commit, wait-commit) leave behind in one round.
    In both cases `sent` lists the messages the phase steps broadcast to the
    committee, in order.
    `Waiting`: the round stopped in `phase` without reaching a commit
    decision; `timedOut` says whether the engine's timeout requested a view
    change over the committee.
    `Committing`: the commit quorum was reached and the commit step ran with
    the engine's current fault threshold `faulty`.
   */
  datatype PhaseRun =
    | Waiting(sent: seq<Msg>, phase: Phase, request: Msg, result: int, log: seq<Msg>, timedOut: bool)
    | Committing(sent: seq<Msg>, request: Msg, result: int, log: seq<Msg>, faulty: int)

  class Peer {
    var id: PeerId
    var groupId: int
    var committeeId: int
    /** The group map, as its in-order list of entries. */
    var group: seq<Entry>
    /** The committee map, as its in-order list of entries. */
    var committee: seq<Entry>
    var ledger: seq<Msg>
    var outStream: seq<Packet>
    var commitLog: seq<Msg>
    var currentRound: int
    var currentPhase: Phase
    var currentRequest: Msg
    var currentRequestResult: int
    var currentView: int
    /** The cached primary; `None` is the null pointer. */
    var primary: Option<PeerId>
    /** The next packet id the id generator hands out. */
    var nextPacketId: nat
    /** Every view change this peer requested, with the committee it was requested over. */
    var viewChanges: seq<seq<Entry>>

    /**
      The registries are ordered maps, a peer is never its own group or
      committee member, and every packet on the channel carries an id handed
      out before the generator's next one.
     */
    ghost predicate Valid()
      reads this`id, this`group, this`committee, this`outStream, this`nextPacketId
    {
      && Sorted(group) && Sorted(committee)
      && id !in KeySet(group) && id !in KeySet(committee)
      && (forall p :: p in outStream ==> p.id < nextPacketId)
    }

    /** A new peer: no group or committee (ids -1), empty ledger, logs and channel, idle. */
    constructor (peerId: PeerId)
      ensures Valid()
      ensures id == peerId && groupId == -1 && committeeId == -1
      ensures group == [] && committee == []
      ensures ledger == [] && outStream == [] && commitLog == [] && viewChanges == []
      ensures currentRound == 0 && currentPhase == Ideal && primary == None
      ensures currentRequest == EmptyMessage && currentRequestResult == 0 && currentView == 0
      ensures nextPacketId == 0
    {
      id := peerId;
      groupId := -1;
      committeeId := -1;
      group := [];
      committee := [];
      ledger := [];
      outStream := [];
      commitLog := [];
      currentRound := 0;
      currentPhase := Ideal;
      currentRequest := EmptyMessage;
      currentRequestResult := 0;
      currentView := 0;
      primary := None;
      nextPacketId := 0;
      viewChanges := [];
    }

    /** A fresh packet id: no packet on the channel carries it. */
    method MakePacketId() returns (pid: nat)
      requires Valid()
      modifies this`nextPacketId
      ensures Valid()
      ensures pid == old(nextPacketId) && nextPacketId == pid + 1
      ensures forall p :: p in outStream ==> p.id != pid
    {
      pid := nextPacketId;
      nextPacketId := nextPacketId + 1;
    }

    /**
      Broadcast `msg` to the committee: one envelope per committee member,
      appended to the outbound channel in the committee's key order.
     */
    method Broadcast(msg: Msg)
      requires Valid()
      modifies this`outStream, this`nextPacketId
      ensures Valid()
      ensures outStream == old(outStream) + Envelopes(id, committee, msg, old(nextPacketId))
      ensures nextPacketId == old(nextPacketId) + |committee|
    {
      ghost var first := nextPacketId;
      for k := 0 to |committee|
        modifies this`nextPacketId, this`outStream
        invariant Valid()
        invariant nextPacketId == first + k
        invariant outStream == old(outStream) + Envelopes(id, committee[..k], msg, first)
      {
        var neighborId := committee[k].id;
        var pckId := MakePacketId();
        var pck := Packet(pckId, id, neighborId, msg);
        assert Envelopes(id, committee[..k + 1], msg, first)
            == Envelopes(id, committee[..k], msg, first) + [pck];
        outStream := outStream + [pck];
      }
      assert committee[..|committee|] == committee;
    }

    /** The arbitration outcome of the in-flight request under threshold `faulty`. */
    function PendingOutcome(faulty: int): Outcome
      reads this
    {
      Arbitrate(currentRequest, currentRequestResult, currentView, commitLog, faulty)
    }

    /**
      The commit step: arbitrate the in-flight request against the commit
      log, append the committed record or request a view change over the
      committee, then reset the round-scoped state.
     */
    method CommitRequest(faulty: int)
      requires Valid()
      modifies this`ledger, this`viewChanges, this`commitLog
      modifies this`currentPhase, this`currentRequest, this`currentRequestResult
      ensures Valid()
      ensures ledger == LedgerAfter(old(ledger), old(currentRequest), old(currentRequestResult),
                                    old(currentRound), old(PendingOutcome(faulty)))
      ensures viewChanges == old(viewChanges) + (if old(PendingOutcome(faulty)).ViewChange? then [old(committee)] else [])
      ensures currentPhase == Ideal && currentRequestResult == 0
      ensures currentRequest == EmptyMessage && commitLog == []
    {
      var commit := currentRequest.(result := currentRequestResult, round := currentRound);
      var numberOfByzantineCommits :=
        CountByzantine(commitLog, currentRequest.sequenceNumber, currentView, currentRequestResult);
      if numberOfByzantineCommits < faulty && !currentRequest.byzantine {
        ledger := ledger + [commit.(defeated := false)];
      } else if numberOfByzantineCommits >= faulty && currentRequest.byzantine {
        ledger := ledger + [commit.(defeated := true)];
      } else {
        viewChanges := viewChanges + [committee];
      }
      currentPhase := Ideal;
      currentRequestResult := 0;
      currentRequest := EmptyMessage;
      commitLog := [];
    }

    /** The group members' ids: the group map's keys in ascending order. */
    method GroupMembers() returns (ids: seq<PeerId>)
      requires Valid()
      ensures ids == Ids(group)
      ensures |ids| == |AsMap(group)|
      ensures forall k :: k in ids <==> k in AsMap(group)
      ensures forall i, j :: 0 <= i < j < |ids| ==> LexLess(ids[i], ids[j])
      ensures id !in ids
    {
      ids := ListIds(group);
    }

    /** The committee members' ids: the committee map's keys in ascending order. */
    method CommitteeMembers() returns (ids: seq<PeerId>)
      requires Valid()
      ensures ids == Ids(committee)
      ensures |ids| == |AsMap(committee)|
      ensures forall k :: k in ids <==> k in AsMap(committee)
      ensures forall i, j :: 0 <= i < j < |ids| ==> LexLess(ids[i], ids[j])
      ensures id !in ids
    {
      ids := ListIds(committee);
    }

    /** Leave the committee: its map becomes empty. */
    method ClearCommittee()
      requires Valid()
      modifies this`committee
      ensures Valid()
      ensures committee == []
    {
      committee := [];
    }

    /**
      Broadcast each of `msgs` to the committee, in order: the broadcasts the
      phase steps perform.
     */
    method BroadcastAll(msgs: seq<Msg>)
      requires Valid()
      modifies this`outStream, this`nextPacketId
      ensures Valid()
      ensures outStream == old(outStream) + Broadcasts(id, committee, msgs, old(nextPacketId))
      ensures nextPacketId == old(nextPacketId) + |Broadcasts(id, committee, msgs, old(nextPacketId))|
      decreases |msgs|
    {
      if msgs != [] {
        ghost var before := outStream;
        Broadcast(msgs[0]);
        ghost var sent := outStream[|before|..];
        BroadcastAll(msgs[1..]);
        assert outStream == before + sent + outStream[|before| + |sent|..];
      }
    }

    /**
      The state the phase steps leave after their broadcasts: a waiting run
      installs the engine's phase, request, result and commit log and may
      request a view change on timeout; a committing run ends with the commit
      step.
     */
    method SettlePhases(run: PhaseRun)
      requires Valid()
      modifies this`ledger, this`viewChanges, this`commitLog
      modifies this`currentPhase, this`currentRequest, this`currentRequestResult
      ensures Valid()
      ensures run.Waiting? ==>
        && ledger == old(ledger)
        && viewChanges == old(viewChanges) + (if run.timedOut then [old(committee)] else [])
        && currentPhase == run.phase && commitLog == run.log
        && currentRequest == run.request && currentRequestResult == run.result
      ensures run.Committing? ==>
        var o := Arbitrate(run.request, run.result, old(currentView), run.log, run.faulty);
        && ledger == LedgerAfter(old(ledger), run.request, run.result, old(currentRound), o)
        && viewChanges == old(viewChanges) + (if o.ViewChange? then [old(committee)] else [])
        && currentPhase == Ideal && commitLog == []
        && currentRequest == EmptyMessage && currentRequestResult == 0
    {
      match run {
        case Waiting(_, phase, request, result, log, timedOut) =>
          currentPhase, currentRequest, currentRequestResult, commitLog := phase, request, result, log;
          if timedOut {
            viewChanges := viewChanges + [committee];
          }
        case Committing(_, request, result, log, faulty) =>
          currentPhase, currentRequest, currentRequestResult, commitLog := CommitWait, request, result, log;
          CommitRequest(faulty);
      }
    }

    /**
      The phase steps of one round, as the engine ran them: they broadcast
      `run.sent` to the committee, then leave the state `SettlePhases` gives.
     */
    method RunPhases(run: PhaseRun)
      requires Valid()
      modifies this`outStream, this`nextPacketId
      modifies this`ledger, this`viewChanges, this`commitLog
      modifies this`currentPhase, this`currentRequest, this`currentRequestResult
      ensures Valid()
      ensures outStream == old(outStream) + Broadcasts(id, committee, run.sent, old(nextPacketId))
      ensures nextPacketId == old(nextPacketId) + |Broadcasts(id, committee, run.sent, old(nextPacketId))|
      ensures run.Waiting? ==>
        && ledger == old(ledger)
        && viewChanges == old(viewChanges) + (if run.timedOut then [old(committee)] else [])
        && currentPhase == run.phase && commitLog == run.log
        && currentRequest == run.request && currentRequestResult == run.result
      ensures run.Committing? ==>
        var o := Arbitrate(run.request, run.result, old(currentView), run.log, run.faulty);
        && ledger == LedgerAfter(old(ledger), run.request, run.result, old(currentRound), o)
        && viewChanges == old(viewChanges) + (if o.ViewChange? then [old(committee)] else [])
        && currentPhase == Ideal && commitLog == []
        && currentRequest == EmptyMessage && currentRequestResult == 0
    {
      BroadcastAll(run.sent);
      SettlePhases(run);
    }

    /**
      One round: resolve a primary if none is cached (`elected` is the
      engine's choice), run the phase steps, leave the committee if the
      ledger grew, and advance the round counter.
     */
    method PerformComputation(elected: Option<PeerId>, run: PhaseRun)
      requires Valid()
      modifies this`primary, this`committee, this`currentRound
      modifies this`outStream, this`nextPacketId
      modifies this`ledger, this`viewChanges, this`commitLog
      modifies this`currentPhase, this`currentRequest, this`currentRequestResult
      ensures Valid()
      ensures primary == (if old(primary).None? then elected else old(primary))
      ensures currentRound == old(currentRound) + 1
      ensures |old(ledger)| <= |ledger| <= |old(ledger)| + 1 && old(ledger) <= ledger
      ensures committee == (if |ledger| > |old(ledger)| then [] else old(committee))
      ensures outStream == old(outStream) + Broadcasts(id, old(committee), run.sent, old(nextPacketId))
      ensures nextPacketId == old(nextPacketId) + |Broadcasts(id, old(committee), run.sent, old(nextPacketId))|
      ensures run.Waiting? ==>
        && ledger == old(ledger)
        && viewChanges == old(viewChanges) + (if run.timedOut then [old(committee)] else [])
        && currentPhase == run.phase && commitLog == run.log
        && currentRequest == run.request && currentRequestResult == run.result
      ensures run.Committing? ==>
        var o := Arbitrate(run.request, run.result, old(currentView), run.log, run.faulty);
        && ledger == LedgerAfter(old(ledger), run.request, run.result, old(currentRound), o)
        && viewChanges == old(viewChanges) + (if o.ViewChange? then [old(committee)] else [])
        && currentPhase == Ideal && commitLog == []
        && currentRequest == EmptyMessage && currentRequestResult == 0
    {
      if primary.None? {
        primary := elected;
      }
      var oldLedgerSize := |ledger|;
      RunPhases(run);
      var hasCommitted := |ledger| > oldLedgerSize;
      if hasCommitted {
        ClearCommittee();
      }
      currentRound := currentRound + 1;
    }
  }
}
