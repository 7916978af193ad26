/**
  The membership registry of a peer. Group and committee are each a
  `std::map` from peer identity to a handle; a `std::map` is an ordered tree,
  and iterating it visits its keys in ascending order. The model keeps each
  registry as that in-order traversal: a sequence of entries whose keys are
  strictly ascending under the string order of `std::string`.
 */
module Membership {
  import opened Messages

  /** An opaque reference to another peer, in place of a live pointer. */
  datatype Handle = Handle(ref: nat)

  /** One key/value pair of a membership map. */
  datatype Entry = Entry(id: PeerId, handle: Handle)

  /** The order of `std::string`: lexicographic, a proper prefix comes first. */
  predicate LexLess(a: string, b: string)
    decreases |a|
  {
    if |a| == 0 then |b| > 0
    else if |b| == 0 then false
    else a[0] < b[0] || (a[0] == b[0] && LexLess(a[1..], b[1..]))
  }

  /** The order is strict: no identity is less than itself. */
  lemma {:induction false} LexLessIrreflexive(a: string)
    ensures !LexLess(a, a)
    decreases |a|
  {
    if |a| > 0 {
      LexLessIrreflexive(a[1..]);
    }
  }

  /** The registry invariant: keys strictly ascending, as a map's in-order traversal is. */
  ghost predicate Sorted(es: seq<Entry>)
  {
    forall i, j :: 0 <= i < j < |es| ==> LexLess(es[i].id, es[j].id)
  }

  /** The keys of a registry, in iteration order. */
  function Ids(es: seq<Entry>): seq<PeerId>
  {
    seq(|es|, i requires 0 <= i < |es| => es[i].id)
  }

  /** The key set of a registry. */
  function KeySet(es: seq<Entry>): set<PeerId>
  {
    set i | 0 <= i < |es| :: es[i].id
  }

  /** The map a registry represents: each key bound to its handle. */
  function AsMap(es: seq<Entry>): (m: map<PeerId, Handle>)
    requires Sorted(es)
    ensures m.Keys == KeySet(es)
    ensures forall i :: 0 <= i < |es| ==> m[es[i].id] == es[i].handle
  {
    forall i, j | 0 <= i < j < |es| ensures es[i].id != es[j].id {
      LexLessIrreflexive(es[i].id);
    }
    map i | 0 <= i < |es| :: es[i].id := es[i].handle
  }

  /** A sorted registry has no duplicate keys. */
  lemma SortedDistinct(es: seq<Entry>, i: int, j: int)
    requires Sorted(es)
    requires 0 <= i < |es| && 0 <= j < |es| && i != j
    ensures es[i].id != es[j].id
  {
    if i < j {
      LexLessIrreflexive(es[i].id);
    } else {
      LexLessIrreflexive(es[j].id);
    }
  }

  /** Dropping the first entry keeps a registry sorted. */
  lemma SortedTail(es: seq<Entry>)
    requires Sorted(es) && |es| > 0
    ensures Sorted(es[1..])
  {
  }

  /** The key set splits into the first key and the keys of the rest. */
  lemma KeySetCons(es: seq<Entry>)
    requires |es| > 0
    ensures KeySet(es) == {es[0].id} + KeySet(es[1..])
  {
  }

  /** A sorted registry has as many keys as entries. */
  lemma {:induction false} SortedSize(es: seq<Entry>)
    requires Sorted(es)
    ensures |KeySet(es)| == |es|
  {
    if |es| > 0 {
      var rest := es[1..];
      SortedTail(es);
      SortedSize(rest);
      KeySetCons(es);
      forall i | 0 <= i < |rest| ensures rest[i].id != es[0].id {
        assert rest[i] == es[i + 1];
        SortedDistinct(es, 0, i + 1);
      }
      assert es[0].id !in KeySet(rest);
    } else {
      assert KeySet(es) == {};
    }
  }

  /** So the map a sorted registry represents has one binding per entry. */
  lemma MapSize(es: seq<Entry>)
    requires Sorted(es)
    ensures |AsMap(es)| == |es|
  {
    SortedSize(es);
    assert |AsMap(es)| == |AsMap(es).Keys|;
  }

  /**
    The keys of a sorted registry are exactly the keys of the map it
    represents, ascending and pairwise distinct, as many as the map's size.
   */
  lemma IdsOfSorted(es: seq<Entry>)
    requires Sorted(es)
    ensures |Ids(es)| == |AsMap(es)|
    ensures forall k :: k in Ids(es) <==> k in AsMap(es)
    ensures forall i, j :: 0 <= i < j < |es| ==> LexLess(Ids(es)[i], Ids(es)[j])
    ensures forall i, j :: 0 <= i < |es| && 0 <= j < |es| && i != j ==> Ids(es)[i] != Ids(es)[j]
  {
    var ids := Ids(es);
    MapSize(es);
    forall i, j | 0 <= i < |es| && 0 <= j < |es| && i != j ensures ids[i] != ids[j] {
      SortedDistinct(es, i, j);
    }
    forall k | k in AsMap(es) ensures k in ids {
      var i :| 0 <= i < |es| && es[i].id == k;
      assert ids[i] == k;
    }
  }

  /**
    The key-listing loop shared by both snapshot getters: one `push_back` per
    map entry, in iteration order. The result is exactly the keys of the
    map, ascending, without duplicates, as many as the map has entries.
   */
  method ListIds(es: seq<Entry>) returns (ids: seq<PeerId>)
    requires Sorted(es)
    ensures ids == Ids(es)
    ensures |ids| == |AsMap(es)|
    ensures forall k :: k in ids <==> k in AsMap(es)
    ensures forall i, j :: 0 <= i < j < |ids| ==> LexLess(ids[i], ids[j])
    ensures forall i, j :: 0 <= i < |ids| && 0 <= j < |ids| && i != j ==> ids[i] != ids[j]
  {
    ids := [];
    for k := 0 to |es|
      invariant |ids| == k
      invariant forall i :: 0 <= i < k ==> ids[i] == es[i].id
    {
      ids := ids + [es[k].id];
    }
    IdsOfSorted(es);
  }
}
