/** What each evidence transaction stores and deletes, said on the rows of the tables.
 */
module LedgerEffects {
  import opened Crypto
  import opened Sets
  import opened LedgerSpec
  import opened LedgerInvariant

  // ---------------------------------------------------------------- rows of one batch

  lemma PickedSnoc<T>(s: seq<T>, at: seq<int>, i: nat)
    requires i < |s| && forall k | 0 <= k < |at| :: 0 <= at[k] < |s|
    ensures Picked(s, at + [i]) == Picked(s, at) + [s[i]]
  {
  }

  lemma PickedSame<T>(s: seq<T>, t: seq<T>, at: seq<int>)
    requires s <= t && forall k | 0 <= k < |at| :: 0 <= at[k] < |s|
    ensures Picked(s, at) == Picked(t, at)
  {
  }

  /** The events of a batch: all of its rows, each once, in the order of the table. */
  lemma {:induction false} EventsAre(events: seq<Event>, id: int) returns (at: seq<int>)
    ensures Ascending(at) && forall i :: i in at <==> 0 <= i < |events| && events[i].batchId == id
    ensures (forall k | 0 <= k < |at| :: 0 <= at[k] < |events|) && EventsOf(events, id) == Picked(events, at)
    decreases |events|
  {
    hide EventsOf, Picked;
    if events == [] {
      at := [];
      NoRows(id);
    } else {
      var n := |events| - 1;
      at := EventsAre(events[..n], id);
      assert forall k | 0 <= k < |at| :: at[k] in at;
      assert events == events[..n] + [events[n]];
      EventsOfConcat(events[..n], [events[n]], id);
      OneRow(events[n], id);
      PickedSame(events[..n], events, at);
      if events[n].batchId == id {
        PickedSnoc(events, at, n);
        at := at + [n];
      }
    }
  }

  lemma NoRows(id: int)
    ensures EventsOf([], id) == [] && Picked<Event>([], []) == []
  {
  }

  lemma OneRow(e: Event, id: int)
    ensures EventsOf([e], id) == if e.batchId == id then [e] else []
  {
  }

  lemma WithoutOne(e: Event, gone: set<Event>)
    ensures Without([e], gone) == if e in gone then [] else [e]
  {
  }

  lemma {:induction false} WithoutConcat(a: seq<Event>, b: seq<Event>, gone: set<Event>)
    ensures Without(a + b, gone) == Without(a, gone) + Without(b, gone)
    decreases |a|
  {
    if a == [] {
      assert a + b == b;
    } else {
      assert (a + b)[1..] == a[1..] + b;
      WithoutConcat(a[1..], b, gone);
    }
  }

  /** A deletion takes the rows it names and leaves the others in order. */
  lemma {:induction false} WithoutAre(events: seq<Event>, gone: set<Event>) returns (at: seq<int>)
    ensures Ascending(at) && forall i :: i in at <==> 0 <= i < |events| && events[i] !in gone
    ensures (forall k | 0 <= k < |at| :: 0 <= at[k] < |events|) && Without(events, gone) == Picked(events, at)
    decreases |events|
  {
    hide Without, Picked;
    if events == [] {
      at := [];
      NothingLeft(gone);
    } else {
      var n := |events| - 1;
      at := WithoutAre(events[..n], gone);
      assert forall k | 0 <= k < |at| :: at[k] in at;
      assert events == events[..n] + [events[n]];
      WithoutConcat(events[..n], [events[n]], gone);
      WithoutOne(events[n], gone);
      PickedSame(events[..n], events, at);
      if events[n] !in gone {
        PickedSnoc(events, at, n);
        at := at + [n];
      }
    }
  }

  lemma NothingLeft(gone: set<Event>)
    ensures Without([], gone) == [] && Picked<Event>([], []) == []
  {
  }

  // ---------------------------------------------------------------- what is signed

  /** The signed form of a stored batch: its row, all of its events, and its trigger links;
      a batch without links has its own trigger, when there is one. */
  ghost predicate Describes(db: Db, id: int, p: LedgerBatch)
    requires id in db.batches
  {
    var row := db.batches[id];
    && p.batchId == id && p.generation == row.generation && p.observedAt == row.observedAt
    && p.changeCount == row.changeCount && p.triggerId == row.triggerId
    && (forall t :: t in p.triggerIds <==>
          && t > 0
          && ((id, t) in db.links || (t == row.triggerId && forall other | other > 0 :: (id, other) !in db.links)))
    && exists at: seq<int> :: Describing(db.events, id, at, p.events)
  }

  ghost predicate Describing(events: seq<Event>, id: int, at: seq<int>, signed: seq<LedgerEvent>) {
    && Ascending(at) && (forall i :: i in at <==> 0 <= i < |events| && events[i].batchId == id)
    && |signed| == |at|
    && forall k | 0 <= k < |at| :: 0 <= at[k] < |events| && signed[k] ==
         LedgerEvent(events[at[k]].id, events[at[k]].generation, events[at[k]].observedAt, events[at[k]].row.body)
  }

  lemma PayloadDescribes(db: Db, id: int)
    requires id in db.batches
    ensures Describes(db, id, Payload(db, id))
  {
    hide EventsOf, TriggersOf;
    var at := EventsAre(db.events, id);
    assert Describing(db.events, id, at, Payload(db, id).events);
    TriggersAre(db.links, id, db.batches[id].triggerId);
  }

  lemma TriggersAre(links: set<(int, int)>, id: int, triggerId: int)
    ensures forall t :: t in TriggersOf(links, id, triggerId) <==>
      t > 0 && ((id, t) in links || (t == triggerId && forall other | other > 0 :: (id, other) !in links))
  {
    var linked := set l | l in links && l.0 == id && l.1 > 0 :: l.1;
    forall t ensures t in linked <==> t > 0 && (id, t) in links {
      if t > 0 && (id, t) in links { assert (id, t).0 == id; }
    }
    if linked != {} {
      var t := Pick(linked);
      assert t > 0 && (id, t) in links;
    }
  }

  // ---------------------------------------------------------------- recording a poll

  /** The entry that a batch gets at the end of the ledger. */
  function EntryFor(env: Instance, ledger: seq<Entry>, id: int, payload: LedgerBatch): Entry {
    var previous := if ledger == [] then "" else ledger[|ledger| - 1].entryHash;
    var hash := env.sha(LEDGER_DOMAIN + previous + "\n" + env.encode(payload));
    Entry(|ledger| + 1, id, previous, hash, env.sign(hash), env.key.id)
  }

  ghost predicate Rows(db: Db, next: Db, generation: int, now: int, changes: seq<NewEvent>, triggers: seq<int>,
                       status: string)
  {
    var (id, first) := (db.nextBatch, if triggers != [] && triggers[0] > 0 then triggers[0] else 0);
    && next.batches == db.batches[id := BatchRow(generation, now, |changes|, first, status)]
    && (forall l :: l in next.links <==> l in db.links || (l.0 == id && l.1 in triggers))
    && |next.events| == |db.events| + |changes| && db.events <= next.events
    && forall k | 0 <= k < |changes| ::
         next.events[|db.events| + k] == Event(db.nextEvent + k, id, generation, now, changes[k])
  }

  lemma InsertedRows(db: Db, generation: int, now: int, changes: seq<NewEvent>, triggers: seq<int>, status: string)
    ensures var next := Inserted(db, generation, now, changes, triggers, status);
      Rows(db, next, generation, now, changes, triggers, status)
  {
    var links := Linked(db.nextBatch, triggers);
    forall l: (int, int) ensures l in links <==> l.0 == db.nextBatch && l.1 in triggers {
      if l.0 == db.nextBatch && l.1 in triggers { LinkedHas(db.nextBatch, triggers, l.1); }
    }
  }

  lemma RowsOnly(db: Db, a: Db, b: Db, generation: int, now: int, changes: seq<NewEvent>, triggers: seq<int>,
                 status: string)
    requires Rows(db, a, generation, now, changes, triggers, status)
    requires a.batches == b.batches && a.links == b.links && a.events == b.events
    ensures Rows(db, b, generation, now, changes, triggers, status)
  {
  }

  lemma LinkedHas(id: int, triggers: seq<int>, t: int)
    requires t in triggers
    ensures (id, t) in Linked(id, triggers)
  {
  }

  /** The rows of a recorded poll: one batch with the first trigger, a link for every
      trigger, an event for every change in order, and the signed entry over all of it. */
  lemma RecordStores(env: Instance, db: Db, generation: int, now: int, changes: seq<NewEvent>, triggers: seq<int>,
                     status: string) returns (payload: LedgerBatch)
    requires Sound(env) && Inv(env, db)
    ensures var id := db.nextBatch;
      && payload.batchId == id && payload.generation == generation && payload.observedAt == now
      && payload.changeCount == |changes|
      && payload.triggerId == (if triggers != [] && triggers[0] > 0 then triggers[0] else 0)
      && payload.triggerIds == (set t | t in triggers && t > 0)
      && |payload.events| == |changes|
      && (forall k | 0 <= k < |changes| ::
            payload.events[k] == LedgerEvent(db.nextEvent + k, generation, now, changes[k].body))
    ensures var (id, next) := (db.nextBatch, Recorded(env, db, generation, now, changes, triggers, status));
      var entry := EntryFor(env, db.ledger, id, payload);
      if changes == [] || exists e | e in db.ledger :: e.entryHash == entry.entryHash then next == db
      else
        && next == db.(batches := next.batches, links := next.links, events := next.events,
                       ledger := db.ledger + [entry], head := entry.entryHash,
                       nextBatch := id + 1, nextEvent := db.nextEvent + |changes|)
        && Rows(db, next, generation, now, changes, triggers, status)
  {
    hide Chained, Bound, Anchored, EventsOf, TriggersOf, Rows;
    InsertedRows(db, generation, now, changes, triggers, status);
    var inserted := Inserted(db, generation, now, changes, triggers, status);
    InsertedIds(db, generation, now, changes, triggers, status);
    payload := Payload(inserted, db.nextBatch);
    NewTriggers(db, generation, now, changes, triggers, status);
    LedgerIdsBelow(db);
    NewEntry(env, db, inserted, db.nextBatch);
    var entry := EntryFor(env, db.ledger, db.nextBatch, payload);
    assert payload.events == Signed(Stored(changes, db.nextEvent, db.nextBatch, generation, now));
    assert !Ledgered(inserted.ledger, db.nextBatch);
    assert HashTaken(db.ledger, entry.entryHash) <==> exists e | e in db.ledger :: e.entryHash == entry.entryHash;
    if changes != [] && !HashTaken(db.ledger, entry.entryHash) {
      var next := Recorded(env, db, generation, now, changes, triggers, status);
      RowsOnly(db, inserted, next, generation, now, changes, triggers, status);
    }
  }

  lemma NewTriggers(db: Db, generation: int, now: int, changes: seq<NewEvent>, triggers: seq<int>, status: string)
    requires IdsBelow(db)
    ensures var inserted := Inserted(db, generation, now, changes, triggers, status);
      Payload(inserted, db.nextBatch).triggerIds == set t | t in triggers && t > 0
  {
    var inserted := Inserted(db, generation, now, changes, triggers, status);
    var id := db.nextBatch;
    TriggersAre(inserted.links, id, inserted.batches[id].triggerId);
    hide TriggersOf;
    assert forall t :: (id, t) in inserted.links <==> t in triggers;
  }

  lemma NewEntry(env: Instance, db: Db, rows: Db, id: int)
    requires Inv(env, db) && rows.ledger == db.ledger && rows.head == db.head && id in rows.batches
    ensures NextEntry(env, rows, id) == EntryFor(env, db.ledger, id, Payload(rows, id))
  {
    hide Payload, Bound, IdsBelow, Anchored;
    if db.ledger != [] { assert EntryOk(env, db.ledger, |db.ledger| - 1); }
  }

  // ---------------------------------------------------------------- backfill

  /** A stored batch above the cursor and within the cutoff whose events are all there. */
  ghost predicate Importable(db: Db, cutoff: int, id: int) {
    && id in db.batches && db.cursor < id && (cutoff > 0 ==> id <= cutoff)
    && db.batches[id].changeCount > 0
    && db.batches[id].changeCount == |set i | 0 <= i < |db.events| && db.events[i].batchId == id|
  }

  lemma EligibleIff(db: Db, cutoff: int, id: int)
    ensures id in Eligible(db, cutoff) <==> Importable(db, cutoff, id)
  {
    hide EventsOf;
    var at := EventsAre(db.events, id);
    DistinctSize(at);
    assert (set i | i in at) == set i | 0 <= i < |db.events| && db.events[i].batchId == id;
  }

  /** One chunk: the first 64 importable batches, in order. */
  lemma ChunkIs(db: Db, cutoff: int)
    ensures var ids := FirstIds(Eligible(db, cutoff), BACKFILL_CHUNK);
      && Ascending(ids)
      && forall id :: id in ids <==> Importable(db, cutoff, id) && |Before(Eligible(db, cutoff), id)| < 64
    ensures forall id :: id in Eligible(db, cutoff) <==> Importable(db, cutoff, id)
  {
    hide Eligible, Importable, FirstIds;
    forall id ensures id in Eligible(db, cutoff) <==> Importable(db, cutoff, id) { EligibleIff(db, cutoff, id); }
    forall id ensures id in FirstIds(Eligible(db, cutoff), BACKFILL_CHUNK) <==>
        Importable(db, cutoff, id) && |Before(Eligible(db, cutoff), id)| < 64 {
      FirstIdsIff(Eligible(db, cutoff), 64, id);
    }
    FirstAscend(Eligible(db, cutoff), BACKFILL_CHUNK);
  }

  lemma FirstAscend(s: set<int>, n: nat)
    ensures Ascending(FirstIds(s, n))
  {
  }

  // ---------------------------------------------------------------- retention

  /** Retention of batches deletes chosen rows that are older than the cutoff and every event
      of theirs, and nothing else; their links stay. */
  lemma BatchesExpire(env: Instance, db: Db, cutoff: int, ids: set<int>) returns (at: seq<int>)
    ensures Ascending(at) && forall i :: i in at <==> 0 <= i < |db.events| && db.events[i].batchId !in ids
    ensures forall k | 0 <= k < |at| :: 0 <= at[k] < |db.events|
    ensures var next := Apply(env, db, ExpireBatches(cutoff, ids));
      if exists id | id in ids :: id !in db.batches || db.batches[id].observedAt >= cutoff then next == db
      else
        && next == db.(batches := next.batches, events := Picked(db.events, at))
        && (forall id :: id in next.batches <==> id in db.batches && id !in ids)
        && forall id | id in next.batches :: next.batches[id] == db.batches[id]
  {
    hide Without;
    at := WithoutAre(db.events, EventsOfAll(db.events, ids));
  }

  /** Events expire on their own when they are old and belong to no stored batch. */
  lemma EventsExpire(env: Instance, db: Db, cutoff: int, gone: set<Event>) returns (at: seq<int>)
    ensures Ascending(at) && forall i :: i in at <==> 0 <= i < |db.events| && db.events[i] !in gone
    ensures forall k | 0 <= k < |at| :: 0 <= at[k] < |db.events|
    ensures Apply(env, db, ExpireEvents(cutoff, gone)) ==
      if forall e | e in gone :: e in db.events && e.observedAt < cutoff && (e.batchId == 0 || e.batchId !in db.batches)
      then db.(events := Picked(db.events, at)) else db
  {
    hide Without;
    at := WithoutAre(db.events, gone);
  }

  /** A batch is the first one that is kept: none that is kept is older, or as old with a
      smaller ID. */
  ghost predicate FirstKept(db: Db, cutoff: int, id: int) {
    && id in db.batches && db.batches[id].observedAt >= cutoff
    && forall other | other in db.batches && db.batches[other].observedAt >= cutoff ::
         || db.batches[id].observedAt < db.batches[other].observedAt
         || (db.batches[id].observedAt == db.batches[other].observedAt && id <= other)
  }

  /** Links expire when their batch is gone and has a smaller ID than the first kept batch,
      or no batch is kept at all. */
  lemma LinksExpire(db: Db, cutoff: int, l: (int, int))
    ensures l in OrphanLinks(db, cutoff) <==>
      && l in db.links && l.0 !in db.batches
      && forall id | FirstKept(db, cutoff, id) :: l.0 < id
  {
    var bound := FirstRetained(db, cutoff);
    var kept := set id | id in db.batches && db.batches[id].observedAt >= cutoff;
    assert forall id | id in db.batches && db.batches[id].observedAt >= cutoff :: id in kept;
    assert bound == if kept == {} then None else Some(Oldest(db, kept));
    if bound.Some? {
      assert forall id | id in kept :: Older(db, bound.value, id);
      assert FirstKept(db, cutoff, bound.value);
      forall id | FirstKept(db, cutoff, id) ensures id == bound.value {}
    }
  }
}
