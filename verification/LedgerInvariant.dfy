/** What every evidence transaction keeps. */
module LedgerInvariant {
  import opened Crypto
  import opened Sets
  import opened LedgerSpec

  function PrevHash(ledger: seq<Entry>, i: int): string
    requires 0 <= i < |ledger|
  {
    if i == 0 then "" else ledger[i - 1].entryHash
  }

  /** Row i is a correctly signed link of a chain that starts at sequence 1. */
  ghost predicate EntryOk(env: Instance, ledger: seq<Entry>, i: int)
    requires 0 <= i < |ledger|
  {
    var e := ledger[i];
    && e.sequence == i + 1
    && e.prevHash == PrevHash(ledger, i)
    && IsHash(e.entryHash)
    && e.keyId == env.key.id
    && e.signature == env.sign(e.entryHash)
    && e.batchId > 0
  }

  ghost predicate Chained(env: Instance, ledger: seq<Entry>) {
    && (forall i | 0 <= i < |ledger| :: EntryOk(env, ledger, i))
    && (forall i, j | 0 <= i < j < |ledger| :: ledger[i].batchId != ledger[j].batchId)
  }

  /** While its batch row exists, an entry still hashes from the stored rows, and
      those rows are complete. */
  ghost predicate Bound(env: Instance, db: Db, e: Entry) {
    e.batchId in db.batches ==>
      && e.entryHash == LedgerDigest(env.sha, e.prevHash, env.encode(Payload(db, e.batchId)))
      && db.batches[e.batchId].changeCount == |EventsOf(db.events, e.batchId)|
  }

  /** Primary-key order of the events table. */
  ghost predicate OrderedById(events: seq<Event>) {
    forall i, j | 0 <= i < j < |events| :: events[i].id < events[j].id
  }

  /** Nothing refers to a batch ID that has not been assigned yet. */
  ghost predicate IdsBelow(db: Db) {
    && 0 < db.nextBatch
    && (forall id | id in db.batches :: 0 < id < db.nextBatch)
    && (forall i | 0 <= i < |db.events| :: db.events[i].batchId < db.nextBatch && db.events[i].id < db.nextEvent)
    && OrderedById(db.events)
    && (forall l | l in db.links :: l.0 < db.nextBatch)
    && (forall i | 0 <= i < |db.ledger| :: db.ledger[i].batchId < db.nextBatch)
  }

  ghost predicate AnchoredAt(ledger: seq<Entry>, c: Checkpoint) {
    1 <= c.sequence <= |ledger| && ledger[c.sequence - 1].entryHash == c.head
  }

  /** Checkpoints were sent for strictly increasing sequences, each still holds in the
      ledger, and the schedule remembers the newest. */
  ghost predicate Anchored(db: Db) {
    && (forall i | 0 <= i < |db.sent| :: AnchoredAt(db.ledger, db.sent[i]))
    && (forall i, j | 0 <= i < j < |db.sent| :: db.sent[i].sequence < db.sent[j].sequence)
    && db.lastCheckpoint == (if db.sent == [] then None else Some(db.sent[|db.sent| - 1]))
  }

  ghost predicate Inv(env: Instance, db: Db) {
    && Chained(env, db.ledger)
    && db.head == (if db.ledger == [] then "" else db.ledger[|db.ledger| - 1].entryHash)
    && (forall i | 0 <= i < |db.ledger| :: Bound(env, db, db.ledger[i]))
    && IdsBelow(db)
    && Anchored(db)
  }

  /** A database before its first ledger entry, possibly full of legacy rows. */
  ghost predicate Fresh(db: Db) {
    && db.ledger == [] && db.head == "" && db.sent == [] && db.lastCheckpoint.None?
    && IdsBelow(db)
  }

  // ---------------------------------------------------------------- events of one batch

  lemma {:induction false} EventsOfConcat(a: seq<Event>, b: seq<Event>, id: int)
    ensures EventsOf(a + b, id) == EventsOf(a, id) + EventsOf(b, id)
    decreases |a|
  {
    if a == [] {
      assert a + b == b;
    } else {
      assert (a + b)[1..] == a[1..] + b;
      EventsOfConcat(a[1..], b, id);
    }
  }

  lemma {:induction false} EventsOfNone(events: seq<Event>, id: int)
    requires forall i | 0 <= i < |events| :: events[i].batchId != id
    ensures EventsOf(events, id) == []
    decreases |events|
  {
    if events != [] { EventsOfNone(events[1..], id); }
  }

  lemma {:induction false} EventsOfOwn(events: seq<Event>, id: int)
    requires forall i | 0 <= i < |events| :: events[i].batchId == id
    ensures EventsOf(events, id) == events
    decreases |events|
  {
    if events != [] { EventsOfOwn(events[1..], id); }
  }

  lemma {:induction false} EventsOfWithout(events: seq<Event>, gone: set<Event>, id: int)
    requires forall e | e in gone :: e.batchId != id
    ensures EventsOf(Without(events, gone), id) == EventsOf(events, id)
    decreases |events|
  {
    if events != [] {
      EventsOfWithout(events[1..], gone, id);
      EventsOfConcat(if events[0] in gone then [] else [events[0]], Without(events[1..], gone), id);
    }
  }

  lemma {:induction false} WithoutBelow(events: seq<Event>, gone: set<Event>, bound: int, idBound: int)
    requires forall i | 0 <= i < |events| :: events[i].batchId < bound && events[i].id < idBound
    requires OrderedById(events)
    ensures forall i | 0 <= i < |Without(events, gone)| ::
        Without(events, gone)[i].batchId < bound && Without(events, gone)[i].id < idBound
    ensures OrderedById(Without(events, gone))
    ensures forall e | e in Without(events, gone) :: e in events
    decreases |events|
  {
    if events != [] {
      WithoutBelow(events[1..], gone, bound, idBound);
      var rest := Without(events[1..], gone);
      forall i | 0 <= i < |rest| ensures events[0].id < rest[i].id {
        assert rest[i] in events[1..];
        var j :| 0 <= j < |events[1..]| && events[1..][j] == rest[i];
        assert events[j + 1] == rest[i];
      }
    }
  }

  /** The events of one batch keep the table's order. */
  lemma {:induction false} EventsOfOrdered(events: seq<Event>, id: int)
    requires OrderedById(events)
    ensures OrderedById(EventsOf(events, id))
    decreases |events|
  {
    if events != [] {
      EventsOfOrdered(events[1..], id);
      var rest := EventsOf(events[1..], id);
      forall i | 0 <= i < |rest| ensures events[0].id < rest[i].id {
        assert rest[i] in events[1..];
        var j :| 0 <= j < |events[1..]| && events[1..][j] == rest[i];
        assert events[j + 1] == rest[i];
      }
    }
  }

  // ---------------------------------------------------------------- appends

  lemma ChainedExtends(env: Instance, ledger: seq<Entry>, e: Entry)
    requires Chained(env, ledger) && EntryOk(env, ledger + [e], |ledger|) && !Ledgered(ledger, e.batchId)
    ensures Chained(env, ledger + [e])
  {
    var next := ledger + [e];
    forall i | 0 <= i < |next| ensures EntryOk(env, next, i) {
      if i < |ledger| { assert EntryOk(env, ledger, i); }
    }
  }

  lemma AnchoredExtends(db: Db, e: Entry)
    requires Anchored(db)
    ensures Anchored(db.(ledger := db.ledger + [e], head := e.entryHash))
  {
    var next := db.(ledger := db.ledger + [e], head := e.entryHash);
    forall i | 0 <= i < |next.sent| ensures AnchoredAt(next.ledger, next.sent[i]) {
      assert AnchoredAt(db.ledger, db.sent[i]);
    }
  }

  lemma NextEntryOk(env: Instance, db: Db, id: int)
    requires Sound(env) && Inv(env, db) && id in db.batches
    ensures EntryOk(env, db.ledger + [NextEntry(env, db, id)], |db.ledger|)
  {
    var n := |db.ledger|;
    if n > 0 { assert EntryOk(env, db.ledger, n - 1); }
  }

  /** An append that succeeds adds at most one correctly linked entry. */
  lemma AppendKeeps(env: Instance, db: Db, id: int)
    requires Sound(env) && Inv(env, db)
    requires id in db.batches ==> db.batches[id].changeCount == |EventsOf(db.events, id)|
    requires AppendEntry(env, db, id).Some?
    ensures Inv(env, AppendEntry(env, db, id).value)
    ensures Ledgered(AppendEntry(env, db, id).value.ledger, id)
    ensures db.ledger <= AppendEntry(env, db, id).value.ledger
  {
    if !Ledgered(db.ledger, id) {
      var e := NextEntry(env, db, id);
      var next := db.(ledger := db.ledger + [e], head := e.entryHash);
      NextEntryOk(env, db, id);
      ChainedExtends(env, db.ledger, e);
      AnchoredExtends(db, e);
      assert next.ledger[|db.ledger|].batchId == id;
      assert Payload(next, id) == Payload(db, id);
      forall i | 0 <= i < |next.ledger| ensures Bound(env, next, next.ledger[i]) {
        if i < |db.ledger| {
          assert Bound(env, db, db.ledger[i]);
          assert next.ledger[i].batchId in db.batches
              ==> Payload(next, next.ledger[i].batchId) == Payload(db, next.ledger[i].batchId);
        }
      }
    }
  }

  /** Everything but the ledger and its head. */
  ghost predicate SameRows(a: Db, b: Db) {
    a.batches == b.batches && a.events == b.events && a.links == b.links
    && a.nextBatch == b.nextBatch && a.nextEvent == b.nextEvent && a.sent == b.sent
        && a.lastCheckpoint == b.lastCheckpoint
  }

  lemma {:induction false} AppendAllKeeps(env: Instance, db: Db, ids: seq<int>)
    requires Sound(env) && Inv(env, db)
    requires forall id | id in ids :: id in db.batches && db.batches[id].changeCount == |EventsOf(db.events, id)|
    requires AppendAll(env, db, ids).Some?
    ensures Inv(env, AppendAll(env, db, ids).value)
    ensures SameRows(db, AppendAll(env, db, ids).value)
    ensures db.ledger <= AppendAll(env, db, ids).value.ledger
    decreases |ids|
  {
    if ids != [] {
      AppendKeeps(env, db, ids[0]);
      AppendAllKeeps(env, AppendEntry(env, db, ids[0]).value, ids[1..]);
    }
  }

  // ---------------------------------------------------------------- one step

  lemma InsertedKeepsPayload(db: Db, generation: int, now: int, changes: seq<NewEvent>, triggers: seq<int>,
          status: string, id: int)
    requires IdsBelow(db) && id in db.batches
    ensures Payload(Inserted(db, generation, now, changes, triggers, status), id) == Payload(db, id)
    ensures EventsOf(Inserted(db, generation, now, changes, triggers, status).events, id) == EventsOf(db.events, id)
  {
    var added := Stored(changes, db.nextEvent, db.nextBatch, generation, now);
    EventsOfConcat(db.events, added, id);
    EventsOfNone(added, id);
    var next := Inserted(db, generation, now, changes, triggers, status);
    assert (set l | l in next.links && l.0 == id && l.1 > 0 :: l.1) ==
        (set l | l in db.links && l.0 == id && l.1 > 0 :: l.1);
  }

  lemma InsertedIds(db: Db, generation: int, now: int, changes: seq<NewEvent>, triggers: seq<int>, status: string)
    requires IdsBelow(db)
    ensures IdsBelow(Inserted(db, generation, now, changes, triggers, status))
    ensures EventsOf(Inserted(db, generation, now, changes, triggers, status).events, db.nextBatch)
         == Stored(changes, db.nextEvent, db.nextBatch, generation, now)
  {
    hide EventsOf, Stored;
    var added := Stored(changes, db.nextEvent, db.nextBatch, generation, now);
    EventsOfConcat(db.events, added, db.nextBatch);
    EventsOfNone(db.events, db.nextBatch);
    EventsOfOwn(added, db.nextBatch);
    assert [] + added == added;
    assert Inserted(db, generation, now, changes, triggers, status).events == db.events + added;
  }

  lemma InsertedKeeps(env: Instance, db: Db, generation: int, now: int, changes: seq<NewEvent>, triggers: seq<int>,
          status: string)
    requires Inv(env, db)
    ensures Inv(env, Inserted(db, generation, now, changes, triggers, status))
  {
    hide Chained, Payload, LedgerDigest, EventsOf, IdsBelow;
    var next := Inserted(db, generation, now, changes, triggers, status);
    InsertedIds(db, generation, now, changes, triggers, status);
    LedgerIdsBelow(db);
    forall i | 0 <= i < |next.ledger| ensures Bound(env, next, next.ledger[i]) {
      assert Bound(env, db, db.ledger[i]);
      if next.ledger[i].batchId in next.batches {
        InsertedKeepsPayload(db, generation, now, changes, triggers, status, next.ledger[i].batchId);
      }
    }
  }

  lemma LedgerIdsBelow(db: Db)
    requires IdsBelow(db)
    ensures forall i | 0 <= i < |db.ledger| :: db.ledger[i].batchId != db.nextBatch
  {
  }

  lemma RemovedKeepsPayload(db: Db, ids: set<int>, id: int)
    requires id in db.batches && id !in ids
    ensures Payload(RemovedBatches(db, ids), id) == Payload(db, id)
    ensures EventsOf(RemovedBatches(db, ids).events, id) == EventsOf(db.events, id)
  {
    EventsOfWithout(db.events, EventsOfAll(db.events, ids), id);
  }

  lemma OrphansKeepPayload(db: Db, cutoff: int, gone: set<Event>, id: int)
    requires gone <= OrphanEvents(db, cutoff) && id in db.batches && id > 0
    ensures Payload(db.(events := Without(db.events, gone)), id) == Payload(db, id)
    ensures EventsOf(Without(db.events, gone), id) == EventsOf(db.events, id)
  {
    EventsOfWithout(db.events, gone, id);
  }

  lemma LinksKeepPayload(db: Db, cutoff: int, unlinked: set<(int, int)>, id: int)
    requires unlinked <= OrphanLinks(db, cutoff) && id in db.batches
    ensures Payload(db.(links := db.links - unlinked), id) == Payload(db, id)
  {
    assert (set l | l in db.links - unlinked && l.0 == id && l.1 > 0 :: l.1) ==
        (set l | l in db.links && l.0 == id && l.1 > 0 :: l.1);
  }

  /** No transaction changes the signed content of a batch that it leaves in place. */
  lemma StepKeepsPayload(env: Instance, db: Db, step: Step, id: int)
    requires Sound(env) && Inv(env, db)
    requires id in db.batches && id in Apply(env, db, step).batches
    ensures Payload(Apply(env, db, step), id) == Payload(db, id)
  {
    match step
    case Record(generation, now, changes, triggers, status) =>
      InsertedKeepsPayload(db, generation, now, changes, triggers, status, id);
    case BackfillChunk(cutoff) =>
      var ids := FirstIds(Eligible(db, cutoff), BACKFILL_CHUNK);
      if ids != [] && AppendAll(env, db, ids).Some? { AppendAllKeeps(env, db, ids); }
    case ExpireBatches(cutoff, ids) =>
      if id !in ids { RemovedKeepsPayload(db, ids, id); }
    case ExpireEvents(cutoff, gone) =>
      if gone <= OrphanEvents(db, cutoff) { OrphansKeepPayload(db, cutoff, gone, id); }
    case ExpireLinks(cutoff, unlinked) =>
      if unlinked <= OrphanLinks(db, cutoff) { LinksKeepPayload(db, cutoff, unlinked, id); }
    case SendCheckpoint(now, interval, destination) =>
  }

  lemma EntryAtIndex(env: Instance, ledger: seq<Entry>, sequence: int)
    requires Chained(env, ledger)
    ensures EntryAt(ledger, sequence) == if 1 <= sequence <= |ledger| then Some(ledger[sequence - 1]) else None
  {
    forall i | 0 <= i < |ledger| ensures ledger[i].sequence == i + 1 { assert EntryOk(env, ledger, i); }
    var found := EntryAt(ledger, sequence);
    if found.Some? {
      var i :| 0 <= i < |ledger| && ledger[i] == found.value;
    } else {
      assert forall i | 0 <= i < |ledger| :: ledger[i] in ledger;
    }
  }

  /** Under the invariant a checkpoint never meets an integrity error. */
  lemma AnchorNeverLost(env: Instance, db: Db, now: int, interval: int, destination: Destination)
    requires Inv(env, db)
    ensures CheckpointDecision(db, now, interval, destination) !in {LostAnchor, MovedAnchor}
  {
    hide Chained, Bound, IdsBelow, EntryAt;
    if db.lastCheckpoint.Some? {
      assert AnchoredAt(db.ledger, db.sent[|db.sent| - 1]);
      EntryAtIndex(env, db.ledger, db.lastCheckpoint.value.sequence);
    }
  }

  lemma NewestSequence(env: Instance, db: Db)
    requires Inv(env, db) && db.ledger != []
    ensures db.ledger[|db.ledger| - 1].sequence == |db.ledger|
  {
    hide Bound, IdsBelow, Anchored;
    assert EntryOk(env, db.ledger, |db.ledger| - 1);
  }

  lemma CheckpointAnchors(env: Instance, db: Db, now: int, interval: int, destination: Destination)
    requires Inv(env, db)
    ensures Anchored(Checkpointed(db, now, interval, destination))
  {
    hide Bound, IdsBelow, Chained, EntryAt;
    if CheckpointDecision(db, now, interval, destination) == Enqueued && db.ledger != [] {
      NewestSequence(env, db);
      var next := Checkpointed(db, now, interval, destination);
      forall i | 0 <= i < |next.sent| ensures AnchoredAt(next.ledger, next.sent[i]) {
        if i < |db.sent| { assert AnchoredAt(db.ledger, db.sent[i]); }
      }
    }
  }

  lemma CheckpointKeeps(env: Instance, db: Db, now: int, interval: int, destination: Destination)
    requires Inv(env, db)
    ensures Inv(env, Checkpointed(db, now, interval, destination))
  {
    hide Chained, Anchored, EventsOf, TriggersOf, CheckpointDecision, LedgerDigest;
    CheckpointAnchors(env, db, now, interval, destination);
    var next := Checkpointed(db, now, interval, destination);
    forall i | 0 <= i < |next.ledger| ensures Bound(env, next, next.ledger[i]) {
      assert Bound(env, db, db.ledger[i]);
    }
  }

  lemma RetentionKeeps(env: Instance, db: Db, next: Db)
    requires Inv(env, db) && IdsBelow(next)
    requires next.ledger == db.ledger && next.head == db.head && next.sent == db.sent
        && next.lastCheckpoint == db.lastCheckpoint
    requires next.batches.Keys <= db.batches.Keys
    requires forall id | id in next.batches ::
      && next.batches[id] == db.batches[id]
      && Payload(next, id) == Payload(db, id)
      && EventsOf(next.events, id) == EventsOf(db.events, id)
    ensures Inv(env, next)
  {
    forall i | 0 <= i < |next.ledger| ensures Bound(env, next, next.ledger[i]) {
      assert Bound(env, db, db.ledger[i]);
    }
  }

  lemma RecordKeeps(env: Instance, db: Db, generation: int, now: int, changes: seq<NewEvent>, triggers: seq<int>,
          status: string)
    requires Sound(env) && Inv(env, db)
    ensures Inv(env, Recorded(env, db, generation, now, changes, triggers, status))
    ensures db.ledger <= Recorded(env, db, generation, now, changes, triggers, status).ledger
  {
    InsertedKeeps(env, db, generation, now, changes, triggers, status);
    InsertedIds(db, generation, now, changes, triggers, status);
    var inserted := Inserted(db, generation, now, changes, triggers, status);
    if changes != [] && AppendEntry(env, inserted, db.nextBatch).Some? {
      AppendKeeps(env, inserted, db.nextBatch);
    }
  }

  lemma CursorKeeps(env: Instance, db: Db, cursor: int)
    requires Inv(env, db)
    ensures Inv(env, db.(cursor := cursor))
  {
    hide Chained, EventsOf, TriggersOf, LedgerDigest;
    var next := db.(cursor := cursor);
    forall i | 0 <= i < |next.ledger| ensures Bound(env, next, next.ledger[i]) {
      assert Bound(env, db, db.ledger[i]);
    }
  }

  lemma BackfillKeeps(env: Instance, db: Db, cutoff: int)
    requires Sound(env) && Inv(env, db)
    ensures Inv(env, Backfilled(env, db, cutoff))
    ensures db.ledger <= Backfilled(env, db, cutoff).ledger
  {
    hide Inv, EventsOf;
    var ids := FirstIds(Eligible(db, cutoff), BACKFILL_CHUNK);
    if ids == [] {
      CursorKeeps(env, db, 0);
    } else if AppendAll(env, db, ids).Some? {
      AppendAllKeeps(env, db, ids);
      CursorKeeps(env, AppendAll(env, db, ids).value, ids[|ids| - 1]);
    }
  }

  lemma ExpireBatchesKeeps(env: Instance, db: Db, ids: set<int>)
    requires Inv(env, db)
    ensures Inv(env, RemovedBatches(db, ids))
  {
    var next := RemovedBatches(db, ids);
    WithoutBelow(db.events, EventsOfAll(db.events, ids), db.nextBatch, db.nextEvent);
    forall id | id in next.batches
      ensures Payload(next, id) == Payload(db, id) && EventsOf(next.events, id) == EventsOf(db.events, id)
    {
      RemovedKeepsPayload(db, ids, id);
    }
    RetentionKeeps(env, db, next);
  }

  lemma ExpireEventsKeeps(env: Instance, db: Db, cutoff: int, gone: set<Event>)
    requires Inv(env, db) && gone <= OrphanEvents(db, cutoff)
    ensures Inv(env, db.(events := Without(db.events, gone)))
  {
    var next := db.(events := Without(db.events, gone));
    WithoutBelow(db.events, gone, db.nextBatch, db.nextEvent);
    forall id | id in next.batches
      ensures Payload(next, id) == Payload(db, id) && EventsOf(next.events, id) == EventsOf(db.events, id)
    {
      OrphansKeepPayload(db, cutoff, gone, id);
    }
    RetentionKeeps(env, db, next);
  }

  lemma ExpireLinksKeeps(env: Instance, db: Db, cutoff: int, unlinked: set<(int, int)>)
    requires Inv(env, db) && unlinked <= OrphanLinks(db, cutoff)
    ensures Inv(env, db.(links := db.links - unlinked))
  {
    var next := db.(links := db.links - unlinked);
    forall id | id in next.batches ensures Payload(next, id) == Payload(db, id) {
      LinksKeepPayload(db, cutoff, unlinked, id);
    }
    RetentionKeeps(env, db, next);
  }

  /** Every transaction keeps the invariant and only ever extends the ledger. */
  lemma StepKeeps(env: Instance, db: Db, step: Step)
    requires Sound(env) && Inv(env, db)
    ensures Inv(env, Apply(env, db, step))
    ensures db.ledger <= Apply(env, db, step).ledger
  {
    match step
    case Record(generation, now, changes, triggers, status) =>
      RecordKeeps(env, db, generation, now, changes, triggers, status);
    case BackfillChunk(cutoff) => BackfillKeeps(env, db, cutoff);
    case ExpireBatches(cutoff, ids) => ExpireBatchesKeeps(env, db, ids);
    case ExpireEvents(cutoff, gone) => if gone <= OrphanEvents(db, cutoff) { ExpireEventsKeeps(env, db, cutoff, gone); }
    case ExpireLinks(cutoff, unlinked) =>
      if unlinked <= OrphanLinks(db, cutoff) { ExpireLinksKeeps(env, db, cutoff, unlinked); }
    case SendCheckpoint(now, interval, destination) => CheckpointKeeps(env, db, now, interval, destination);
  }

  // ---------------------------------------------------------------- whole runs

  lemma {:induction false} RunKeeps(env: Instance, db: Db, steps: seq<Step>)
    requires Sound(env) && Inv(env, db)
    ensures Inv(env, Run(env, db, steps))
    ensures db.ledger <= Run(env, db, steps).ledger
    decreases |steps|
  {
    if steps != [] {
      StepKeeps(env, db, steps[0]);
      RunKeeps(env, Apply(env, db, steps[0]), steps[1..]);
    }
  }
}
