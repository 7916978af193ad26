/**
  Broadcast to the committee: one envelope per committee member, in the
  committee's key order, each from this peer to that member and carrying the
  same message.
 */
module Outbound {
  import opened Messages
  import opened Membership

  /**
    The envelopes a broadcast of `body` to `members` emits, numbered from
    `firstId`: one per member, in member order.
   */
  function Envelopes(self: PeerId, members: seq<Entry>, body: Msg, firstId: nat): seq<Packet>
  {
    seq(|members|, i requires 0 <= i < |members| => Packet(firstId + i, self, members[i].id, body))
  }

  /**
    Over a sorted committee, the targets are the committee's keys, in
    ascending order and pairwise distinct, and none of them is the sender
    when the sender is not a committee key; the packet ids are distinct.
   */
  lemma EnvelopeTargets(self: PeerId, members: seq<Entry>, body: Msg, firstId: nat)
    requires Sorted(members)
    ensures var ps := Envelopes(self, members, body, firstId);
      && (forall i, j :: 0 <= i < j < |ps| ==> LexLess(ps[i].target, ps[j].target))
      && (forall i, j :: 0 <= i < |ps| && 0 <= j < |ps| && i != j ==>
            ps[i].target != ps[j].target && ps[i].id != ps[j].id)
      && (forall k :: k in AsMap(members) <==> exists i :: 0 <= i < |ps| && ps[i].target == k)
      && (self !in AsMap(members) ==> forall i :: 0 <= i < |ps| ==> ps[i].target != self)
  {
    var ps := Envelopes(self, members, body, firstId);
    forall i, j | 0 <= i < |ps| && 0 <= j < |ps| && i != j
      ensures ps[i].target != ps[j].target
    {
      SortedDistinct(members, i, j);
    }
    forall k | k in AsMap(members) ensures exists i :: 0 <= i < |ps| && ps[i].target == k {
      var i :| 0 <= i < |members| && members[i].id == k;
      assert ps[i].target == k;
    }
  }

  /**
    The envelopes of several broadcasts to the same members, one after the
    other, each numbered on from where the previous one stopped.
   */
  function Broadcasts(self: PeerId, members: seq<Entry>, bodies: seq<Msg>, firstId: nat): seq<Packet>
    decreases |bodies|
  {
    if |bodies| == 0 then []
    else Envelopes(self, members, bodies[0], firstId) + Broadcasts(self, members, bodies[1..], firstId + |members|)
  }

  /**
    Several broadcasts emit one envelope per member and message, numbered
    consecutively from `firstId`; every one comes from the sender, carries
    one of the messages and goes to a member, never to the sender when it is
    not a member.
   */
  lemma {:induction false} BroadcastsShape(self: PeerId, members: seq<Entry>, bodies: seq<Msg>, firstId: nat)
    ensures var ps := Broadcasts(self, members, bodies, firstId);
      && |ps| == |bodies| * |members|
      && (forall i :: 0 <= i < |ps| ==> ps[i].id == firstId + i)
      && (forall i :: 0 <= i < |ps| ==>
            ps[i].source == self && ps[i].body in bodies && ps[i].target in KeySet(members))
      && (self !in KeySet(members) ==> forall i :: 0 <= i < |ps| ==> ps[i].target != self)
    decreases |bodies|
  {
    if |bodies| > 0 {
      var m := |members|;
      var first := Envelopes(self, members, bodies[0], firstId);
      var rest := Broadcasts(self, members, bodies[1..], firstId + m);
      BroadcastsShape(self, members, bodies[1..], firstId + m);
      var ps := first + rest;
      assert |ps| == m + (|bodies| - 1) * m == |bodies| * m;
      forall i | 0 <= i < |ps|
        ensures ps[i].id == firstId + i
        ensures ps[i].source == self && ps[i].body in bodies && ps[i].target in KeySet(members)
      {
        if i < m {
          assert ps[i] == first[i];
        } else {
          assert ps[i] == rest[i - m];
          assert rest[i - m].body in bodies[1..];
        }
      }
    }
  }
}
