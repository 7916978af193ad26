/**
  Commit arbitration: a peer counts the byzantine-flagged commit evidence that
  matches its in-flight request, compares the count with the fault threshold,
  and either finalizes the request (as honest or as defeated) or calls for a
  view change.
 */
module Arbitration {
  import opened Messages

  /** Whether one commit-log entry is byzantine evidence for the request. */
  predicate CountsAgainst(m: Msg, seqNo: int, view: int, result: int)
  {
    m.sequenceNumber == seqNo && m.view == view && m.result == result && m.byzantine
  }

  /** The number of byzantine commits in `log` that match on sequence number, view and result. */
  function ByzantineCommits(log: seq<Msg>, seqNo: int, view: int, result: int): (n: nat)
    ensures n <= |log|
    ensures n == 0 <==> forall i :: 0 <= i < |log| ==> !CountsAgainst(log[i], seqNo, view, result)
  {
    if |log| == 0 then 0
    else
      ByzantineCommits(log[..|log| - 1], seqNo, view, result)
        + (if CountsAgainst(log[|log| - 1], seqNo, view, result) then 1 else 0)
  }

  /** The positions of the log that hold matching byzantine evidence. */
  ghost function MatchingPositions(log: seq<Msg>, seqNo: int, view: int, result: int): set<int>
  {
    set i | 0 <= i < |log| && CountsAgainst(log[i], seqNo, view, result)
  }

  /** The count is the number of matching log positions. */
  lemma {:induction false} ByzantineCommitsCountsPositions(log: seq<Msg>, seqNo: int, view: int, result: int)
    ensures ByzantineCommits(log, seqNo, view, result) == |MatchingPositions(log, seqNo, view, result)|
  {
    if |log| > 0 {
      var init := log[..|log| - 1];
      ByzantineCommitsCountsPositions(init, seqNo, view, result);
      var last := |log| - 1;
      var before := MatchingPositions(init, seqNo, view, result);
      assert last !in before;
      assert MatchingPositions(log, seqNo, view, result)
          == before + (if CountsAgainst(log[last], seqNo, view, result) then {last} else {}) by {
        forall i | 0 <= i < last ensures log[i] == init[i] { }
      }
    } else {
      assert MatchingPositions(log, seqNo, view, result) == {};
    }
  }

  /** Counting splits over a log received in two parts. */
  lemma {:induction false} ByzantineCommitsAppend(a: seq<Msg>, b: seq<Msg>, seqNo: int, view: int, result: int)
    ensures ByzantineCommits(a + b, seqNo, view, result)
         == ByzantineCommits(a, seqNo, view, result) + ByzantineCommits(b, seqNo, view, result)
    decreases |b|
  {
    if |b| > 0 {
      var b' := b[..|b| - 1];
      assert (a + b)[..|a + b| - 1] == a + b';
      ByzantineCommitsAppend(a, b', seqNo, view, result);
    } else {
      assert a + b == a;
    }
  }

  /**
    The counting loop of the commit step: one pass over the log with a
    mutable counter.
   */
  method CountByzantine(log: seq<Msg>, seqNo: int, view: int, result: int) returns (n: int)
    ensures n == ByzantineCommits(log, seqNo, view, result)
    ensures 0 <= n <= |log|
  {
    n := 0;
    for k := 0 to |log|
      invariant n == ByzantineCommits(log[..k], seqNo, view, result)
    {
      assert log[..k + 1][..k] == log[..k];
      if log[k].sequenceNumber == seqNo && log[k].view == view && log[k].result == result {
        if log[k].byzantine {
          n := n + 1;
        }
      }
    }
    assert log[..|log|] == log;
  }

  /** What the arbitration decides. */
  datatype Outcome = Finalize(defeated: bool) | ViewChange

  /**
    The decision table: honest finalize when the byzantine evidence is below
    the threshold and the request is honest; defeated finalize when it reaches
    the threshold and the request is byzantine; otherwise a view change.
   */
  function Decide(count: int, faulty: int, requestByzantine: bool): (o: Outcome)
    // A request is finalized exactly when the evidence agrees with its own flag,
    ensures o.Finalize? <==> ((count >= faulty) == requestByzantine)
    // and it is marked defeated exactly when the request itself is byzantine.
    ensures o.Finalize? ==> o.defeated == requestByzantine
  {
    if count < faulty && !requestByzantine then Finalize(false)
    else if count >= faulty && requestByzantine then Finalize(true)
    else ViewChange
  }

  /** Arbitration of the in-flight request against the collected commit log. */
  function Arbitrate(request: Msg, result: int, view: int, log: seq<Msg>, faulty: int): (o: Outcome)
    ensures var b := ByzantineCommits(log, request.sequenceNumber, view, result);
      && (o == Finalize(false) <==> b < faulty && !request.byzantine)
      && (o == Finalize(true) <==> b >= faulty && request.byzantine)
      && (o == ViewChange <==> (b >= faulty && !request.byzantine) || (b < faulty && request.byzantine))
  {
    Decide(ByzantineCommits(log, request.sequenceNumber, view, result), faulty, request.byzantine)
  }

  /**
    The record committed for a request: the request itself with its computed
    result, the committing round and the defeated flag filled in.
   */
  function CommitRecord(request: Msg, result: int, round: int, defeated: bool): Msg
  {
    request.(result := result, round := round, defeated := defeated)
  }

  /** The ledger after an arbitration outcome: one record appended on finalize, unchanged on view change. */
  function LedgerAfter(ledger: seq<Msg>, request: Msg, result: int, round: int, o: Outcome): (r: seq<Msg>)
    ensures |r| == |ledger| + (if o.Finalize? then 1 else 0)
    ensures r[..|ledger|] == ledger
    ensures o.Finalize? ==> r[|ledger|] == CommitRecord(request, result, round, o.defeated)
  {
    match o
    case Finalize(d) => ledger + [CommitRecord(request, result, round, d)]
    case ViewChange => ledger
  }

  /** The ledger never shrinks and grows by at most one record per arbitration. */
  lemma LedgerGrowth(ledger: seq<Msg>, request: Msg, result: int, view: int, round: int, log: seq<Msg>, faulty: int)
    ensures var r := LedgerAfter(ledger, request, result, round, Arbitrate(request, result, view, log, faulty));
      && |ledger| <= |r| <= |ledger| + 1
      && ledger <= r
      && (|r| == |ledger| + 1 <==>
            (ByzantineCommits(log, request.sequenceNumber, view, result) >= faulty) == request.byzantine)
  {
  }

  /**
    The worked example of a four-member committee with threshold one:
    an honest request with no byzantine evidence is finalized as honest; the
    same request with two byzantine commits causes a view change; a
    byzantine request with two byzantine commits is finalized as defeated.
   */
  lemma ThresholdOneScenario(r: Msg, bad: Msg)
    requires !r.byzantine
    requires bad == r.(byzantine := true)
    ensures Arbitrate(r, r.result, r.view, [r, r, r], 1) == Finalize(false)
    ensures Arbitrate(r, r.result, r.view, [r, bad, bad], 1) == ViewChange
    ensures Arbitrate(bad, r.result, r.view, [r, bad, bad], 1) == Finalize(true)
  {
  }
}
