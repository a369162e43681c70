/**
 * "Newest first": the order in which the store lists documents, by
 * descending creation stamp. Stamps are distinct, so the order is total.
 */
module Ordering {
  import opened Schemas

  /** No two documents carry the same stamp. */
  ghost predicate DistinctStamps(stamps: map<Id, nat>) {
    forall a, b :: a in stamps && b in stamps && stamps[a] == stamps[b] ==> a == b
  }

  /** `k` carries the largest stamp. */
  predicate IsNewest(stamps: map<Id, nat>, k: Id) {
    k in stamps && forall j :: j in stamps ==> stamps[j] <= stamps[k]
  }

  /** A non-empty table has a newest document. */
  lemma {:induction false} NewestExists(stamps: map<Id, nat>)
    requires |stamps| > 0
    ensures exists k :: IsNewest(stamps, k)
    decreases |stamps|
  {
    var k0 :| k0 in stamps;
    var rest := stamps - {k0};
    assert rest.Keys == stamps.Keys - {k0};
    assert forall j :: j in rest ==> rest[j] == stamps[j];
    if |rest| == 0 {
      assert stamps.Keys == {k0};
      assert IsNewest(stamps, k0);
    } else {
      NewestExists(rest);
      var k1 :| IsNewest(rest, k1);
      if stamps[k0] <= stamps[k1] {
        assert IsNewest(stamps, k1);
      } else {
        assert IsNewest(stamps, k0);
      }
    }
  }

  /** Taking out the newest document leaves older ones, one fewer. */
  lemma RemoveNewest(stamps: map<Id, nat>, k: Id)
    requires DistinctStamps(stamps) && IsNewest(stamps, k)
    ensures var rest := stamps - {k};
      && DistinctStamps(rest) && |rest| == |stamps| - 1
      && (forall j :: j in rest ==> j in stamps && rest[j] == stamps[j] && stamps[j] < stamps[k])
  {
    var rest := stamps - {k};
    assert rest.Keys == stamps.Keys - {k};
  }

  /**
   * The ids of `stamps`, newest first: every id appears (and nothing else),
   * stamps strictly decrease along the list, so no id appears twice.
   */
  function NewestFirst(stamps: map<Id, nat>): (r: seq<Id>)
    requires DistinctStamps(stamps)
    ensures |r| == |stamps|
    ensures forall i :: 0 <= i < |r| ==> r[i] in stamps
    ensures forall k :: k in stamps ==> k in r
    ensures forall i, j :: 0 <= i < j < |r| ==> stamps[r[i]] > stamps[r[j]]
    decreases |stamps|
  {
    if |stamps| == 0 then []
    else
      NewestExists(stamps);
      var k :| IsNewest(stamps, k);
      var rest := stamps - {k};
      RemoveNewest(stamps, k);
      var tail := NewestFirst(rest);
      NewestBeforeTail(stamps, k, tail);
      [k] + tail
  }

  /** Putting the newest id in front of a newest-first listing of the others lists them all newest first. */
  lemma NewestBeforeTail(stamps: map<Id, nat>, k: Id, tail: seq<Id>)
    requires k in stamps
    requires var rest := stamps - {k};
      && |rest| == |stamps| - 1
      && (forall j :: j in rest ==> rest[j] == stamps[j] && stamps[j] < stamps[k])
      && |tail| == |rest|
      && (forall i :: 0 <= i < |tail| ==> tail[i] in rest)
      && (forall j :: j in rest ==> j in tail)
      && (forall i, j :: 0 <= i < j < |tail| ==> rest[tail[i]] > rest[tail[j]])
    ensures var r := [k] + tail;
      && |r| == |stamps|
      && (forall i :: 0 <= i < |r| ==> r[i] in stamps)
      && (forall j :: j in stamps ==> j in r)
      && (forall i, j :: 0 <= i < j < |r| ==> stamps[r[i]] > stamps[r[j]])
  {
    var r := [k] + tail;
    forall i | 0 <= i < |r|
      ensures r[i] in stamps && (i > 0 ==> r[i] == tail[i - 1] && r[i] in stamps - {k})
    {
    }
  }
}
