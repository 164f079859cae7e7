/** One collector's snapshots and state row as the object a poll updates, each method
    proved against the functions of `ReconcileSpec`.
 */
module ReconcileStore {
  import opened Sets
  import opened ReconcileSpec
  import Reconcile

  lemma IdsSnoc(resources: seq<Resource>, r: Resource)
    ensures Ids(resources + [r]) == Ids(resources) + {r.id}
  {
    Reconcile.IdsSplit(resources + [r]);
    assert (resources + [r])[..|resources|] == resources;
  }

  lemma UpsertSnoc(cfg: Config, s: State, resources: seq<Resource>, r: Resource, baselined: bool, absorb: bool)
    ensures UpsertedAll(cfg, s, resources + [r], baselined, absorb) ==
        Upserted(cfg, UpsertedAll(cfg, s, resources, baselined, absorb), r, baselined, absorb)
  {
    assert (resources + [r])[..|resources|] == resources;
  }

  lemma NoneUpserted(cfg: Config, s: State, baselined: bool, absorb: bool)
    ensures UpsertedAll(cfg, s, [], baselined, absorb) == s && Ids([]) == {}
  {
  }

  // ---------------------------------------------------------------- removal, row by row

  /** The rows after the listed ones have counted one more miss. */
  function Missed(rows: map<int, Stored>, ids: set<int>): map<int, Stored> {
    map id | id in rows && !(id in ids && rows[id].missing + 1 >= 2) ::
      if id in ids then rows[id].(missing := rows[id].missing + 1) else rows[id]
  }

  /** The listed rows that leave. */
  function Leaving(rows: map<int, Stored>, ids: seq<int>): (r: seq<int>)
    ensures forall id :: id in r <==> id in ids && id in rows && rows[id].missing + 1 >= 2
    ensures (forall i, j | 0 <= i < j < |ids| :: ids[i] < ids[j]) ==> forall i, j | 0 <= i < j < |r| :: r[i] < r[j]
  {
    if ids == [] then []
    else
      var n := |ids| - 1;
      assert ids == ids[..n] + [ids[n]];
      var before := Leaving(rows, ids[..n]);
      assert forall i | 0 <= i < |before| :: before[i] in before && before[i] in ids[..n];
      if ids[n] in rows && rows[ids[n]].missing + 1 >= 2 then before + [ids[n]] else before
  }

  lemma NothingMissed(rows: map<int, Stored>)
    ensures Missed(rows, {}) == rows && Leaving(rows, []) == []
    ensures RemovedEvents([]) == []
  {
  }

  lemma MissedStep(rows: map<int, Stored>, ids: set<int>, id: int)
    requires id in rows && id !in ids
    ensures var before := Missed(rows, ids);
      && id in before && before[id] == rows[id]
      && Missed(rows, ids + {id}) == if rows[id].missing + 1 >= 2 then before - {id}
          else before[id := rows[id].(missing := rows[id].missing + 1)]
  {
  }

  lemma LeavingSnoc(rows: map<int, Stored>, ids: seq<int>, id: int)
    requires id in rows
    ensures var before := Leaving(rows, ids);
      && Leaving(rows, ids + [id]) == (if rows[id].missing + 1 >= 2 then before + [id] else before)
      && RemovedEvents(before + [id]) == RemovedEvents(before) + [Removed(id)]
  {
    assert (ids + [id])[..|ids|] == ids;
  }

  /** All omitted rows, in order, are the reconciliation of the specification. */
  lemma MissedAll(cfg: Config, s: State, seen: set<int>, baselined: bool, absent: seq<int>)
    requires absent == Ordered(s.snapshots.Keys - seen)
    ensures Reconciled(cfg, s, seen, baselined) ==
      s.(snapshots := Missed(s.snapshots, Elements(absent)),
         events := s.events + if baselined && cfg.kind != DeviceDetails then
             RemovedEvents(Leaving(s.snapshots, absent)) else [])
  {
    hide Ordered, Leaving;
    OrderedCovers(s.snapshots.Keys - seen);
    var gone := Gone(s, seen);
    OrderedCovers(gone);
    forall id ensures id in Leaving(s.snapshots, absent) <==> id in gone {}
    OrderedUnique(Leaving(s.snapshots, absent), Ordered(gone));
  }

  class Collector {
    const cfg: Config
    var snapshots: map<int, Stored>
    var events: seq<Event>
    var known: bool
    var supported: bool
    var baseline: bool
    var failures: nat
    var note: Note
    var scoped: bool

    ghost function View(): State
      reads this
    {
      State(snapshots, events, known, supported, baseline, failures, note, scoped)
    }

    constructor (cfg: Config)
      ensures View() == NEW && this.cfg == cfg
    {
      this.cfg := cfg;
      snapshots, events, known, supported, baseline, failures, note, scoped :=
          map[], [], false, false, false, 0, Healthy, false;
    }

    method UpsertResource(r: Resource, baselined: bool, absorb: bool)
      modifies this`snapshots, this`events
      ensures View() == Upserted(cfg, old(View()), r, baselined, absorb)
    {
      if r.id !in snapshots {
        if baselined && cfg.kind != DeviceDetails && !(absorb && r.shared) { events := events + [Created(r.id)]; }
      } else if snapshots[r.id].hash != r.hash {
        if baselined && cfg.reports(snapshots[r.id].hash, r.hash) { events := events + [Changed(r.id)]; }
      } else if snapshots[r.id].missing == 0 {
        assert snapshots[r.id := Stored(r.hash, 0)] == snapshots;
        return;
      }
      snapshots := snapshots[r.id := Stored(r.hash, 0)];
    }

    /** Counts the stored resources a complete answer omitted and decides whether to hold
        their removal back. */
    method MassRemovalGuard(seen: set<int>, partial: bool) returns (guarded: bool, missingCount: nat)
      ensures partial ==> guarded && missingCount == 0
      ensures !partial ==> missingCount == |Absent(View(), seen)| && (guarded <==> Guards(View(), seen))
    {
      hide Ordered, Elements;
      if partial { return true, 0; }
      var ids := Ordered(snapshots.Keys);
      OrderedCovers(snapshots.Keys);
      missingCount := 0;
      var confirmedMissing := true;
      NoElements();
      for i := 0 to |ids|
        invariant missingCount == |Elements(ids[..i]) - seen|
        invariant confirmedMissing <==> forall id | id in Elements(ids[..i]) - seen ::
            id in snapshots && snapshots[id].missing > 0
      {
        var id := ids[i];
        assert id in ids;
        NextVisited(ids, i, seen);
        if id !in seen {
          missingCount := missingCount + 1;
          if snapshots[id].missing == 0 { confirmedMissing := false; }
        }
      }
      assert ids[..|ids|] == ids;
      ghost var absent := Absent(View(), seen);
      assert Elements(ids) - seen == absent;
      EmptyWhenNone(absent);
      if missingCount == 0 { confirmedMissing := false; }
      var suspicious := missingCount >= 3 && missingCount > |seen|;
      if !suspicious || confirmedMissing { return false, missingCount; }
      guarded := note != Guarded || failures < 2;
    }

    /** The omitted rows are read first; then each one counts a miss or is removed. */
    method ReconcileMissing(seen: set<int>, baselined: bool)
      modifies this`snapshots, this`events
      ensures View() == Reconciled(cfg, old(View()), seen, baselined)
    {
      hide Ordered, Missed, Leaving, Reconciled, Elements, Gone, RemovedEvents;
      ghost var start := View();
      var absent := Ordered(snapshots.Keys - seen);
      OrderedCovers(snapshots.Keys - seen);
      var silent := !(baselined && cfg.kind != DeviceDetails);
      NoElements();
      NothingMissed(snapshots);
      for i := 0 to |absent|
        invariant snapshots == Missed(start.snapshots, Elements(absent[..i]))
        invariant events == start.events + if silent then [] else RemovedEvents(Leaving(start.snapshots, absent[..i]))
      {
        var id := absent[i];
        assert absent[..i + 1] == absent[..i] + [id] && id in absent;
        NotYetVisited(absent, i);
        ElementsSnoc(absent[..i], id);
        MissedStep(start.snapshots, Elements(absent[..i]), id);
        LeavingSnoc(start.snapshots, absent[..i], id);
        if snapshots[id].missing + 1 >= 2 {
          if !silent { events := events + [Removed(id)]; }
          snapshots := snapshots - {id};
        } else {
          snapshots := snapshots[id := snapshots[id].(missing := snapshots[id].missing + 1)];
        }
      }
      assert absent[..|absent|] == absent;
      MissedAll(cfg, start, seen, baselined, absent);
    }

    /** One supported result: upsert what was returned, reconcile what was omitted, record
        the collector's state. */
    method ApplyCollector(resources: seq<Resource>, partial: bool)
      modifies this
      ensures View() == Answered(cfg, old(View()), resources, partial)
    {
      hide UpsertedAll, Concluded, Ids;
      ghost var start := View();
      var baselined := baseline;
      var absorb := cfg.kind == Users && baseline && !scoped;
      if cfg.kind == Users { scoped := true; }
      assert View() == start.(scoped := start.scoped || cfg.kind == Users) && (absorb <==> Absorbs(cfg, start));
      var seen := UpsertResources(resources, baselined, absorb);
      assert View() == AfterUpserts(cfg, start, resources);
      Conclude(seen, partial, baselined);
    }

    /** What was omitted, and the collector's state row. */
    method Conclude(seen: set<int>, partial: bool, baselined: bool)
      modifies this
      ensures View() == Concluded(cfg, old(View()), seen, partial, baselined)
    {
      hide Reconciled, Guards;
      var guarded, missingCount := MassRemovalGuard(seen, partial);
      if !guarded {
        EmptyWhenNone(Absent(View(), seen));
        if missingCount > 0 { ReconcileMissing(seen, baselined); }
        known, supported, baseline, failures, note := true, true, true, 0, Healthy;
      } else if partial {
        failures := if known then failures else 1;
        known, supported, baseline, note := true, true, true, PartialAnswer;
      } else {
        failures := if known then failures + 1 else 1;
        known, supported, note := true, true, Guarded;
      }
    }

    method UpsertResources(resources: seq<Resource>, baselined: bool, absorb: bool) returns (seen: set<int>)
      modifies this`snapshots, this`events
      ensures View() == UpsertedAll(cfg, old(View()), resources, baselined, absorb)
      ensures seen == Ids(resources)
    {
      hide UpsertedAll, Upserted, Ids;
      ghost var entry := View();
      seen := {};
      NoneUpserted(cfg, entry, baselined, absorb);
      for i := 0 to |resources|
        invariant View() == UpsertedAll(cfg, entry, resources[..i], baselined, absorb)
        invariant seen == Ids(resources[..i])
      {
        assert resources[..i + 1] == resources[..i] + [resources[i]];
        UpsertSnoc(cfg, entry, resources[..i], resources[i], baselined, absorb);
        IdsSnoc(resources[..i], resources[i]);
        seen := seen + {resources[i].id};
        UpsertResource(resources[i], baselined, absorb);
      }
      assert resources[..|resources|] == resources;
    }

    method UnsupportedCollector()
      modifies this`known, this`supported, this`failures, this`note
      ensures View() == NotSupported(old(View()))
    {
      if known && supported && baseline && note != UnsupportedOnce {
        failures, note := 1, UnsupportedOnce;
        return;
      }
      known, supported, note := true, false, UnsupportedTwice;
    }

    method RecordFailure()
      modifies this`known, this`supported, this`failures, this`note
      ensures View() == Failing(old(View()))
    {
      known, supported, failures, note := true, true, failures + 1, FailedPoll;
    }
  }

  lemma NoElements()
    ensures Elements([]) == {}
  {
  }

  lemma EmptyWhenNone(s: set<int>)
    ensures |s| == 0 <==> s == {}
  {
  }

  lemma NextVisited(ids: seq<int>, i: nat, seen: set<int>)
    requires i < |ids| && forall a, b | 0 <= a < b < |ids| :: ids[a] < ids[b]
    ensures var before, after := Elements(ids[..i]) - seen, Elements(ids[..i + 1]) - seen;
      && after == (if ids[i] in seen then before else before + {ids[i]})
      && |after| == (if ids[i] in seen then |before| else |before| + 1)
  {
    NotYetVisited(ids, i);
    ElementsSnoc(ids[..i], ids[i]);
    assert ids[..i + 1] == ids[..i] + [ids[i]];
    var before, after := Elements(ids[..i]) - seen, Elements(ids[..i + 1]) - seen;
    assert after == (if ids[i] in seen then before else before + {ids[i]});
  }

  lemma NotYetVisited(ids: seq<int>, i: nat)
    requires i < |ids| && forall a, b | 0 <= a < b < |ids| :: ids[a] < ids[b]
    ensures ids[i] !in ids[..i] && ids[i] !in Elements(ids[..i])
  {
  }
}
