/** The evidence tables as one value, and every transaction that touches them as a
    function from one value to the next. Rows that SQL keeps unordered are maps and
    sets; `events` and `ledger` are in primary-key order.
 */
module LedgerSpec {
  import opened Crypto
  import opened Sets

  /** The columns of an event that its batch's signed payload carries. */
  datatype Body = Body(collector: string, eventType: string, resourceId: string, name: string,
                       changes: string, before: string, after: string, muted: bool, attribution: Option<string>)

  /** Size metadata kept beside a stored value. */
  datatype ValueMeta = ValueMeta(hash: string, bytes: int, truncated: bool)

  datatype NewEvent = NewEvent(body: Body, severity: string, before: ValueMeta, after: ValueMeta)

  datatype Event = Event(id: int, batchId: int, generation: int, observedAt: int, row: NewEvent)

  datatype BatchRow = BatchRow(generation: int, observedAt: int, changeCount: int, triggerId: int,
          attributionStatus: string)

  datatype Entry = Entry(sequence: int, batchId: int, prevHash: string, entryHash: string, signature: string,
          keyId: string)

  datatype LedgerEvent = LedgerEvent(id: int, generation: int, observedAt: int, body: Body)

  /** The canonical payload of a batch. Trigger IDs are listed in order without
      repetition, so a set carries the same information. */
  datatype LedgerBatch = LedgerBatch(batchId: int, generation: int, observedAt: int, changeCount: int,
                                     triggerId: int, triggerIds: set<int>, events: seq<LedgerEvent>)

  datatype Checkpoint = Checkpoint(sequence: int, head: string, sentAt: int)

  datatype Db = Db(
    batches: map<int, BatchRow>,
    events: seq<Event>,
    links: set<(int, int)>,
    ledger: seq<Entry>,
    head: string,
    nextBatch: int,
    nextEvent: int,
    cursor: int,
    lastCheckpoint: Option<Checkpoint>,
    sent: seq<Checkpoint>)

  /** One installation: its hash, its signing key and its payload encoding. */
  datatype Instance = Instance(sha: string -> string, sign: string -> string, key: PublicKey,
                               encode: LedgerBatch -> string, decode: string -> Option<LedgerBatch>)

  ghost predicate Sound(env: Instance) {
    && (forall m :: IsHash(env.sha(m)))
    && (forall h :: env.sign(h) != "" && env.key.verify(h, env.sign(h)))
    && (forall b :: env.encode(b) != "" && env.decode(env.encode(b)) == Some(b))
    && env.key.id != ""
  }

  // ---------------------------------------------------------------- payloads

  function EventsOf(events: seq<Event>, batchId: int): (r: seq<Event>)
    ensures forall e | e in r :: e in events && e.batchId == batchId
  {
    if events == [] then []
    else (if events[0].batchId == batchId then [events[0]] else []) + EventsOf(events[1..], batchId)
  }

  function Signed(events: seq<Event>): (r: seq<LedgerEvent>)
    ensures |r| == |events|
    ensures forall i | 0 <= i < |r| ::
      r[i] == LedgerEvent(events[i].id, events[i].generation, events[i].observedAt, events[i].row.body)
  {
    seq(|events|, i requires 0 <= i < |events| =>
      LedgerEvent(events[i].id, events[i].generation, events[i].observedAt, events[i].row.body))
  }

  /** Linked triggers, or the batch's own trigger when it has no links. */
  function TriggersOf(links: set<(int, int)>, batchId: int, triggerId: int): set<int> {
    var linked := set l | l in links && l.0 == batchId && l.1 > 0 :: l.1;
    if linked == {} && triggerId > 0 then {triggerId} else linked
  }

  function Payload(db: Db, batchId: int): LedgerBatch
    requires batchId in db.batches
  {
    var row := db.batches[batchId];
    LedgerBatch(batchId, row.generation, row.observedAt, row.changeCount, row.triggerId,
                TriggersOf(db.links, batchId, row.triggerId), Signed(EventsOf(db.events, batchId)))
  }

  // ---------------------------------------------------------------- appending

  predicate Ledgered(ledger: seq<Entry>, batchId: int) {
    exists i | 0 <= i < |ledger| :: ledger[i].batchId == batchId
  }

  predicate HashTaken(ledger: seq<Entry>, hash: string) {
    exists i | 0 <= i < |ledger| :: ledger[i].entryHash == hash
  }

  function LedgerHead(db: Db): string {
    if db.ledger == [] then db.head else db.ledger[|db.ledger| - 1].entryHash
  }

  function NextEntry(env: Instance, db: Db, batchId: int): Entry
    requires batchId in db.batches
  {
    var previous := LedgerHead(db);
    var hash := LedgerDigest(env.sha, previous, env.encode(Payload(db, batchId)));
    var sequence := if db.ledger == [] then 1 else db.ledger[|db.ledger| - 1].sequence + 1;
    Entry(sequence, batchId, previous, hash, env.sign(hash), env.key.id)
  }

  /** None when the transaction fails: the batch is missing, or the entry hash is
      already in the ledger (the column is unique). */
  function AppendEntry(env: Instance, db: Db, batchId: int): Option<Db> {
    if Ledgered(db.ledger, batchId) then Some(db)
    else if batchId !in db.batches then None
    else
      var entry := NextEntry(env, db, batchId);
      if HashTaken(db.ledger, entry.entryHash) then None
      else Some(db.(ledger := db.ledger + [entry], head := entry.entryHash))
  }

  function AppendAll(env: Instance, db: Db, ids: seq<int>): Option<Db>
    decreases |ids|
  {
    if ids == [] then Some(db)
    else match AppendEntry(env, db, ids[0])
      case None => None
      case Some(next) => AppendAll(env, next, ids[1..])
  }

  // ---------------------------------------------------------------- recording a poll

  function Stored(changes: seq<NewEvent>, firstId: int, batchId: int, generation: int, now: int): (r: seq<Event>)
    ensures |r| == |changes|
    ensures forall i | 0 <= i < |r| :: r[i] == Event(firstId + i, batchId, generation, now, changes[i])
  {
    seq(|changes|, i requires 0 <= i < |changes| => Event(firstId + i, batchId, generation, now, changes[i]))
  }

  function Linked(batchId: int, triggers: seq<int>): set<(int, int)> {
    set t | t in triggers :: (batchId, t)
  }

  /** The rows of a new batch, before its ledger entry. */
  function Inserted(db: Db, generation: int, now: int, changes: seq<NewEvent>, triggers: seq<int>, status: string): Db {
    var id := db.nextBatch;
    var triggerId := if triggers != [] && triggers[0] > 0 then triggers[0] else 0;
    db.(batches := db.batches[id := BatchRow(generation, now, |changes|, triggerId, status)],
        links := db.links + Linked(id, triggers),
        events := db.events + Stored(changes, db.nextEvent, id, generation, now),
        nextBatch := id + 1,
        nextEvent := db.nextEvent + |changes|)
  }

  /** A poll without changes stores nothing; a failed append rolls everything back. */
  function Recorded(env: Instance, db: Db, generation: int, now: int, changes: seq<NewEvent>, triggers: seq<int>,
          status: string): Db {
    if changes == [] then db
    else match AppendEntry(env, Inserted(db, generation, now, changes, triggers, status), db.nextBatch)
      case None => db
      case Some(next) => next
  }

  // ---------------------------------------------------------------- backfill

  const BACKFILL_CHUNK := 64

  /** Batches with a complete, non-empty event set above the cursor and up to the
      cutoff (0 is no bound). */
  function Eligible(db: Db, cutoff: int): set<int> {
    set id | id in db.batches
          && id > db.cursor
          && db.batches[id].changeCount > 0
          && db.batches[id].changeCount == |EventsOf(db.events, id)|
          && (cutoff > 0 ==> id <= cutoff)
  }

  /** One backfill transaction: append the next chunk and move the durable cursor,
      or clear the cursor when nothing is left. A failed append changes nothing. */
  function Backfilled(env: Instance, db: Db, cutoff: int): Db {
    var ids := FirstIds(Eligible(db, cutoff), BACKFILL_CHUNK);
    if ids == [] then db.(cursor := 0)
    else match AppendAll(env, db, ids)
      case None => db
      case Some(next) => next.(cursor := ids[|ids| - 1])
  }

  // ---------------------------------------------------------------- retention

  function Without(events: seq<Event>, gone: set<Event>): seq<Event> {
    if events == [] then []
    else (if events[0] in gone then [] else [events[0]]) + Without(events[1..], gone)
  }

  predicate Expired(db: Db, cutoff: int, id: int) {
    id in db.batches && db.batches[id].observedAt < cutoff
  }

  function EventsOfAll(events: seq<Event>, ids: set<int>): set<Event> {
    set e | e in events && e.batchId in ids
  }

  /** A batch leaves together with its events. */
  function RemovedBatches(db: Db, ids: set<int>): Db {
    db.(batches := db.batches - ids, events := Without(db.events, EventsOfAll(db.events, ids)))
  }

  /** Old events that no batch row owns. */
  function OrphanEvents(db: Db, cutoff: int): set<Event> {
    set e | e in db.events && e.observedAt < cutoff && (e.batchId == 0 || e.batchId !in db.batches)
  }

  /** ORDER BY observed_at, rowid. */
  predicate Older(db: Db, a: int, b: int)
    requires a in db.batches && b in db.batches
  {
    db.batches[a].observedAt < db.batches[b].observedAt
        || (db.batches[a].observedAt == db.batches[b].observedAt && a <= b)
  }

  lemma {:induction false} OldestExists(db: Db, pool: set<int>)
    requires pool != {} && pool <= db.batches.Keys
    ensures exists m :: m in pool && forall y | y in pool :: Older(db, m, y)
    decreases |pool|
  {
    var x := Pick(pool);
    var rest := pool - {x};
    if rest == {} {
      assert forall y | y in pool :: Older(db, x, y) by { assert pool == {x}; }
    } else {
      OldestExists(db, rest);
      var m :| m in rest && forall y | y in rest :: Older(db, m, y);
      var oldest := if Older(db, x, m) then x else m;
      forall y | y in pool ensures Older(db, oldest, y) { assert y == x || y in rest; }
      assert oldest in pool;
    }
  }

  function Oldest(db: Db, pool: set<int>): (m: int)
    requires pool != {} && pool <= db.batches.Keys
    ensures m in pool && forall y | y in pool :: Older(db, m, y)
  {
    OldestExists(db, pool);
    var m :| m in pool && forall y | y in pool :: Older(db, m, y);
    m
  }

  /** The first batch inside the retention window, by observation time. */
  function FirstRetained(db: Db, cutoff: int): Option<int> {
    var kept := set id | id in db.batches && db.batches[id].observedAt >= cutoff;
    if kept == {} then None else Some(Oldest(db, kept))
  }

  /** Trigger links that no batch row owns, below the first retained batch. */
  function OrphanLinks(db: Db, cutoff: int): set<(int, int)> {
    var bound := FirstRetained(db, cutoff);
    set l | l in db.links && l.0 !in db.batches && (bound.None? || l.0 < bound.value)
  }

  // ---------------------------------------------------------------- checkpoints

  datatype Destination = Off | Unavailable | Ready

  datatype CheckpointOutcome = NotDue | Enqueued | LostAnchor | MovedAnchor | NoDestination

  function EntryAt(ledger: seq<Entry>, sequence: int): (r: Option<Entry>)
    ensures r.Some? ==> r.value in ledger && r.value.sequence == sequence
    ensures r.None? ==> forall e | e in ledger :: e.sequence != sequence
  {
    if ledger == [] then None
    else if ledger[0].sequence == sequence then Some(ledger[0])
    else EntryAt(ledger[1..], sequence)
  }

  function CheckpointDecision(db: Db, now: int, interval: int, destination: Destination): CheckpointOutcome {
    if destination == Off then NotDue
    else if db.lastCheckpoint.Some? && EntryAt(db.ledger, db.lastCheckpoint.value.sequence).None? then LostAnchor
    else if db.lastCheckpoint.Some?
        && EntryAt(db.ledger, db.lastCheckpoint.value.sequence).value.entryHash != db.lastCheckpoint.value.head then
        MovedAnchor
    else if db.ledger == [] then NotDue
    else if db.lastCheckpoint.Some? && db.ledger[|db.ledger| - 1].sequence <= db.lastCheckpoint.value.sequence then
        NotDue
    else if db.lastCheckpoint.Some? && 0 <= now - db.lastCheckpoint.value.sentAt < interval then NotDue
    else if destination == Unavailable then NoDestination
    else Enqueued
  }

  function Checkpointed(db: Db, now: int, interval: int, destination: Destination): Db {
    if CheckpointDecision(db, now, interval, destination) == Enqueued && db.ledger != [] then
      var last := db.ledger[|db.ledger| - 1];
      var checkpoint := Checkpoint(last.sequence, last.entryHash, now);
      db.(lastCheckpoint := Some(checkpoint), sent := db.sent + [checkpoint])
    else db
  }

  // ---------------------------------------------------------------- runs

  datatype Step =
    | Record(generation: int, now: int, changes: seq<NewEvent>, triggers: seq<int>, status: string)
    | BackfillChunk(cutoff: int)
    | ExpireBatches(cutoff: int, ids: set<int>)
    | ExpireEvents(cutoff: int, gone: set<Event>)
    | ExpireLinks(cutoff: int, unlinked: set<(int, int)>)
    | SendCheckpoint(now: int, interval: int, destination: Destination)

  /** The choices a LIMIT leaves open are part of the step; a step whose choice the
      statement could not make does nothing. */
  function Apply(env: Instance, db: Db, step: Step): Db {
    match step
    case Record(generation, now, changes, triggers, status) =>
      Recorded(env, db, generation, now, changes, triggers, status)
    case BackfillChunk(cutoff) => Backfilled(env, db, cutoff)
    case ExpireBatches(cutoff, ids) =>
      if forall id | id in ids :: Expired(db, cutoff, id) then RemovedBatches(db, ids) else db
    case ExpireEvents(cutoff, gone) =>
      if gone <= OrphanEvents(db, cutoff) then db.(events := Without(db.events, gone)) else db
    case ExpireLinks(cutoff, unlinked) =>
      if unlinked <= OrphanLinks(db, cutoff) then db.(links := db.links - unlinked) else db
    case SendCheckpoint(now, interval, destination) => Checkpointed(db, now, interval, destination)
  }

  function Run(env: Instance, db: Db, steps: seq<Step>): Db
    decreases |steps|
  {
    if steps == [] then db else Run(env, Apply(env, db, steps[0]), steps[1..])
  }
}
