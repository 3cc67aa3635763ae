/** What one reconciliation pass over one id-keyed collection must emit, stated
    independently of the order in which ids are visited, and the properties of
    that statement: exact set differences, previous-snapshot payloads for
    removals, at most one event per id, idempotence and uniqueness up to order. */
module SnapshotDiff {

  /** One lifecycle notification: `onXAdded(id, entity)` or `onXRemoved(id, entity)`. */
  datatype Change<E> = Added(id: string, entity: E) | Removed(id: string, entity: E)

  /** The ids a sequence of changes mentions. */
  function Ids<E>(cs: seq<Change<E>>): set<string> {
    set i | 0 <= i < |cs| :: cs[i].id
  }

  ghost predicate DistinctIds<E>(cs: seq<Change<E>>) {
    forall i, j :: 0 <= i < j < |cs| ==> cs[i].id != cs[j].id
  }

  /** `cs` names every entry of `m` exactly once, each with the payload `m` holds for it. */
  ghost predicate Covers<E>(cs: seq<Change<E>>, m: map<string, E>) {
    && DistinctIds(cs)
    && Ids(cs) == m.Keys
    && forall i :: 0 <= i < |cs| ==> cs[i].id in m && cs[i].entity == m[cs[i].id]
  }

  /** `cs` announces every entry of `m` as added, once each. */
  ghost predicate AnnouncesAdded<E>(cs: seq<Change<E>>, m: map<string, E>) {
    Covers(cs, m) && forall i :: 0 <= i < |cs| ==> cs[i].Added?
  }

  /** `cs` announces every entry of `m` as removed, once each. */
  ghost predicate AnnouncesRemoved<E>(cs: seq<Change<E>>, m: map<string, E>) {
    Covers(cs, m) && forall i :: 0 <= i < |cs| ==> cs[i].Removed?
  }

  /** A replay pass from `prev` to `cur` emits `added`, then `removed`: the
      entries of `cur` whose id `prev` lacks, with their current payload, and
      the entries of `prev` whose id `cur` lacks, with their previous payload. */
  ghost predicate IsReplayDiff<E>(added: seq<Change<E>>, removed: seq<Change<E>>,
                                  prev: map<string, E>, cur: map<string, E>) {
    AnnouncesAdded(added, cur - prev.Keys) && AnnouncesRemoved(removed, prev - cur.Keys)
  }

  /** A sequence of changes with distinct ids mentions as many ids as it has elements. */
  lemma {:induction false} DistinctIdsCount<E>(cs: seq<Change<E>>)
    requires DistinctIds(cs)
    ensures |Ids(cs)| == |cs|
  {
    if cs != [] {
      var n := |cs| - 1;
      var init := cs[..n];
      assert DistinctIds(init) by {
        forall i, j | 0 <= i < j < |init| ensures init[i].id != init[j].id {
          assert init[i] == cs[i] && init[j] == cs[j];
        }
      }
      DistinctIdsCount(init);
      assert Ids(cs) == Ids(init) + {cs[n].id} by {
        forall x | x in Ids(cs) ensures x in Ids(init) + {cs[n].id} {
          var i :| 0 <= i < |cs| && cs[i].id == x;
          if i < n { assert init[i] == cs[i]; }
        }
        forall x | x in Ids(init) ensures x in Ids(cs) {
          var i :| 0 <= i < |init| && init[i].id == x;
          assert cs[i] == init[i];
        }
      }
      forall i | 0 <= i < |init| ensures init[i].id != cs[n].id {
        assert cs[i] == init[i];
      }
    }
  }

  /** A covering sequence has one element per entry of the map. */
  lemma CoversLength<E>(cs: seq<Change<E>>, m: map<string, E>)
    requires Covers(cs, m)
    ensures |cs| == |m|
  {
    DistinctIdsCount(cs);
    assert |m| == |m.Keys|;
  }

  /** Appending a change for a fresh id to a covering sequence covers the
      map extended with that id; this is the step of every emission loop. */
  lemma CoversExtend<E>(cs: seq<Change<E>>, m: map<string, E>, c: Change<E>)
    requires Covers(cs, m) && c.id !in m
    ensures Covers(cs + [c], m[c.id := c.entity])
  {
    var ds := cs + [c];
    assert forall i :: 0 <= i < |cs| ==> ds[i] == cs[i];
    assert ds[|cs|] == c;
    assert Ids(ds) == Ids(cs) + {c.id} by {
      forall x | x in Ids(ds) ensures x in Ids(cs) + {c.id} {
        var i :| 0 <= i < |ds| && ds[i].id == x;
      }
      forall x | x in Ids(cs) ensures x in Ids(ds) {
        var i :| 0 <= i < |cs| && cs[i].id == x;
        assert ds[i].id == x;
      }
    }
  }

  /** One step of a loop that announces, as added, the entries of `m` it has
      already visited (those not `pending`). */
  lemma AnnounceAddedNext<E>(cs: seq<Change<E>>, m: map<string, E>, pending: set<string>, c: Change<E>)
    requires AnnouncesAdded(cs, m - pending)
    requires c.Added? && c.id in pending && c.id in m && c.entity == m[c.id]
    ensures AnnouncesAdded(cs + [c], m - (pending - {c.id}))
  {
    CoversExtend(cs, m - pending, c);
    assert (m - pending)[c.id := c.entity] == m - (pending - {c.id});
  }

  /** The same step for a loop that announces entries as removed. */
  lemma AnnounceRemovedNext<E>(cs: seq<Change<E>>, m: map<string, E>, pending: set<string>, c: Change<E>)
    requires AnnouncesRemoved(cs, m - pending)
    requires c.Removed? && c.id in pending && c.id in m && c.entity == m[c.id]
    ensures AnnouncesRemoved(cs + [c], m - (pending - {c.id}))
  {
    CoversExtend(cs, m - pending, c);
    assert (m - pending)[c.id := c.entity] == m - (pending - {c.id});
  }

  /** Visiting an id that `m` does not hold leaves the visited part of `m` as it was. */
  lemma SkipPending<E>(m: map<string, E>, pending: set<string>, id: string)
    requires id !in m
    ensures m - pending == m - (pending - {id})
  {
  }

  /** Once nothing is pending, the visited part of `m` is all of `m`. */
  lemma NothingPending<E>(m: map<string, E>)
    ensures m - {} == m
  {
  }

  /** In a distinct sequence every element occurs at most once. */
  lemma {:induction false} DistinctMultiplicity<E>(cs: seq<Change<E>>, c: Change<E>)
    requires DistinctIds(cs)
    ensures multiset(cs)[c] == if c in cs then 1 else 0
  {
    if cs != [] {
      var n := |cs| - 1;
      var init := cs[..n];
      assert cs == init + [cs[n]];
      assert DistinctIds(init) by {
        forall i, j | 0 <= i < j < |init| ensures init[i].id != init[j].id {
          assert init[i] == cs[i] && init[j] == cs[j];
        }
      }
      DistinctMultiplicity(init, c);
      if c == cs[n] {
        forall i | 0 <= i < |init| ensures init[i] != c {
          assert cs[i] == init[i];
        }
      }
    }
  }

  /** Two sequences that cover the same map with the same kind of change hold
      the same changes: a pass's output is determined up to the order in which
      ids are visited. */
  lemma CoversUnique<E>(cs: seq<Change<E>>, ds: seq<Change<E>>, m: map<string, E>)
    requires Covers(cs, m) && Covers(ds, m)
    requires forall i, j :: 0 <= i < |cs| && 0 <= j < |ds| ==> cs[i].Added? == ds[j].Added?
    ensures multiset(cs) == multiset(ds)
  {
    forall c | c in cs ensures c in ds {
      var i :| 0 <= i < |cs| && cs[i] == c;
      assert c.id in Ids(ds);
      var j :| 0 <= j < |ds| && ds[j].id == c.id;
      assert ds[j] == c;
    }
    forall c | c in ds ensures c in cs {
      var i :| 0 <= i < |ds| && ds[i] == c;
      assert c.id in Ids(cs);
      var j :| 0 <= j < |cs| && cs[j].id == c.id;
      assert cs[j] == c;
    }
    forall c ensures multiset(cs)[c] == multiset(ds)[c] {
      DistinctMultiplicity(cs, c);
      DistinctMultiplicity(ds, c);
    }
  }

  /** The added ids are exactly current minus previous and the removed ids
      exactly previous minus current, one event per id. */
  lemma ReplayDiffIsSetDifference<E>(added: seq<Change<E>>, removed: seq<Change<E>>,
                                     prev: map<string, E>, cur: map<string, E>)
    requires IsReplayDiff(added, removed, prev, cur)
    ensures Ids(added) == cur.Keys - prev.Keys && |added| == |cur.Keys - prev.Keys|
    ensures Ids(removed) == prev.Keys - cur.Keys && |removed| == |prev.Keys - cur.Keys|
  {
    CoversLength(added, cur - prev.Keys);
    CoversLength(removed, prev - cur.Keys);
    assert (cur - prev.Keys).Keys == cur.Keys - prev.Keys;
    assert (prev - cur.Keys).Keys == prev.Keys - cur.Keys;
  }

  /** A removed event carries the entity of the previous snapshot, an added
      event that of the current one. */
  lemma ReplayDiffPayloads<E>(added: seq<Change<E>>, removed: seq<Change<E>>,
                              prev: map<string, E>, cur: map<string, E>)
    requires IsReplayDiff(added, removed, prev, cur)
    ensures forall i :: 0 <= i < |removed| ==>
      removed[i].Removed? && removed[i].id in prev && removed[i].entity == prev[removed[i].id]
    ensures forall i :: 0 <= i < |added| ==>
      added[i].Added? && added[i].id in cur && added[i].entity == cur[added[i].id]
  {
  }

  /** An id present in both snapshots yields no event at all. */
  lemma ReplayDiffCommonIdsSilent<E>(added: seq<Change<E>>, removed: seq<Change<E>>,
                                     prev: map<string, E>, cur: map<string, E>, id: string)
    requires IsReplayDiff(added, removed, prev, cur)
    requires id in prev && id in cur
    ensures id !in Ids(added + removed)
  {
    var all := added + removed;
    forall i | 0 <= i < |all| ensures all[i].id != id {
      if i < |added| {
        assert all[i] == added[i];
      } else {
        assert all[i] == removed[i - |added|];
      }
    }
  }

  /** Over the whole pass, added and removed together, no id occurs twice. */
  lemma ReplayDiffAtMostOncePerId<E>(added: seq<Change<E>>, removed: seq<Change<E>>,
                                     prev: map<string, E>, cur: map<string, E>)
    requires IsReplayDiff(added, removed, prev, cur)
    ensures DistinctIds(added + removed)
  {
    var all := added + removed;
    forall i, j | 0 <= i < j < |all| ensures all[i].id != all[j].id {
      if j < |added| {
        assert all[i] == added[i] && all[j] == added[j];
      } else if |added| <= i {
        assert all[i] == removed[i - |added|] && all[j] == removed[j - |added|];
      } else {
        assert all[i] == added[i] && all[j] == removed[j - |added|];
        assert all[i].id in cur - prev.Keys;
        assert all[j].id in prev - cur.Keys;
      }
    }
  }

  /** Idempotence: when the id sets did not change, a pass emits nothing. */
  lemma ReplayDiffOfUnchangedIsEmpty<E>(added: seq<Change<E>>, removed: seq<Change<E>>,
                                        prev: map<string, E>, cur: map<string, E>)
    requires IsReplayDiff(added, removed, prev, cur)
    requires prev.Keys == cur.Keys
    ensures added == [] && removed == []
  {
    ReplayDiffIsSetDifference(added, removed, prev, cur);
  }

  /** Two passes over the same pair of snapshots emit the same events, up to order. */
  lemma ReplayDiffUnique<E>(added: seq<Change<E>>, removed: seq<Change<E>>,
                            added': seq<Change<E>>, removed': seq<Change<E>>,
                            prev: map<string, E>, cur: map<string, E>)
    requires IsReplayDiff(added, removed, prev, cur)
    requires IsReplayDiff(added', removed', prev, cur)
    ensures multiset(added) == multiset(added') && multiset(removed) == multiset(removed')
  {
    CoversUnique(added, added', cur - prev.Keys);
    CoversUnique(removed, removed', prev - cur.Keys);
  }

  /** The start-up emission of a collection is the replay pass from an empty
      previous collection, in both directions. */
  lemma StartupIsDiffFromEmpty<E>(added: seq<Change<E>>, cur: map<string, E>)
    ensures AnnouncesAdded(added, cur) <==> IsReplayDiff(added, [], map[], cur)
  {
    var none: map<string, E> := map[];
    assert cur - none.Keys == cur;
    assert none - cur.Keys == none;
  }

  /** Previous bombs {b1, b2} and current bombs {b2, b3}: the pass removes b1
      with its previous payload, adds b3, and says nothing about b2. */
  lemma ReplayScenario<E>(added: seq<Change<E>>, removed: seq<Change<E>>, e1: E, e2: E, e2': E, e3: E)
    requires IsReplayDiff(added, removed, map["b1" := e1, "b2" := e2], map["b2" := e2', "b3" := e3])
    ensures added == [Added("b3", e3)]
    ensures removed == [Removed("b1", e1)]
  {
    var prev := map["b1" := e1, "b2" := e2];
    var cur := map["b2" := e2', "b3" := e3];
    assert (cur - prev.Keys).Keys == {"b3"};
    assert (prev - cur.Keys).Keys == {"b1"};
    CoversLength(added, cur - prev.Keys);
    CoversLength(removed, prev - cur.Keys);
    assert added[0].id in (cur - prev.Keys).Keys;
    assert removed[0].id in (prev - cur.Keys).Keys;
  }
}
