/** Packs of stores whose batches were all written by polls: the writer of event rows, what
    runs of it keep, and which packs the verifier accepts then.
 */
module PackRuns {
  import opened Crypto
  import opened LedgerSpec
  import opened LedgerInvariant
  import opened Sets
  import opened Pack
  import opened PackVerify
  import opened PackExport
  import opened PackComplete
  import opened PackTheorem
  import opened PackChain
  import opened PackCovers
  import History
  import HistoryPaging
  import LedgerStore

  // ---------------------------------------------------------------- the writer

  /** One side of a recorded change: nothing, a whole normalised value under its own hash,
      or the marker that a snapshot too long to store was replaced with. */
  datatype Side = Absent | Whole(raw: string) | Cut(hash: string, bytes: int, limit: int, rejected: bool)

  predicate SideOk(side: Side) {
    (side.Whole? ==> side.raw != "") && (side.Cut? ==> IsHash(side.hash) && side.bytes > 0)
  }

  function RawOf(w: World, side: Side): string {
    match side
    case Absent => ""
    case Whole(raw) => raw
    case Cut(hash, bytes, limit, rejected) => w.markerText(hash, bytes, limit, rejected)
  }

  function HashOf(w: World, side: Side): string {
    match side
    case Absent => ""
    case Whole(raw) => w.env.sha(raw)
    case Cut(hash, _, _, _) => hash
  }

  function Effective(limit: nat, reject: nat): nat {
    if 0 < reject < limit then reject else limit
  }

  /** A value and its size metadata, cut to a marker when it is too long. */
  function Bounded(w: World, raw: string, hash: string, limit: nat, reject: nat): (string, ValueMeta) {
    var effective := Effective(limit, reject);
    if |raw| <= effective then (raw, ValueMeta(hash, |raw|, false))
    else (w.markerText(hash, |raw|, effective, 0 < reject < |raw|), ValueMeta(hash, |raw|, true))
  }

  /** What a later poll finds of a snapshot that was stored under a limit. */
  function Snapshot(w: World, raw: string, limit: nat, reject: nat): Side {
    var effective := Effective(limit, reject);
    if raw == "" then Absent
    else if |raw| <= effective then Whole(raw)
    else Cut(w.env.sha(raw), |raw|, effective, 0 < reject < |raw|)
  }

  datatype Recorded = Recorded(collector: string, eventType: string, resourceId: string, name: string, fields: Fields,
                               before: Side, after: Side, severity: string, muted: bool, candidate: Option<string>)

  /** The audit log lookup of a poll, in the four states it can end in. */
  datatype Lookup = NotDone | Done | Failed | Refused

  function StatusOf(lookup: Lookup): Attributed {
    match lookup
    case NotDone => NoLookup
    case Done => Complete
    case Failed => LookupUnavailable
    case Refused => LookupUnsupported
  }

  datatype Poll = Poll(generation: int, now: int, recorded: seq<Recorded>, triggers: seq<int>, lookup: Lookup,
          limit: nat, reject: nat)

  ghost predicate PollOk(poll: Poll) {
    forall r | r in poll.recorded :: SideOk(r.before) && SideOk(r.after)
  }

  /** The event row of one recorded change. Only a complete lookup attributes. */
  function InsertedEvent(w: World, r: Recorded, lookup: Lookup, limit: nat, reject: nat): NewEvent {
    var before := Bounded(w, RawOf(w, r.before), HashOf(w, r.before), limit, reject);
    var after := Bounded(w, RawOf(w, r.after), HashOf(w, r.after), limit, reject);
    NewEvent(Body(r.collector, r.eventType, r.resourceId, r.name, w.fieldsText(r.fields), before.0, after.0, r.muted,
                  if lookup == Done then r.candidate else None),
             r.severity, before.1, after.1)
  }

  function InsertedEvents(w: World, poll: Poll): (r: seq<NewEvent>)
    ensures |r| == |poll.recorded|
    ensures forall i | 0 <= i < |r| :: r[i] == InsertedEvent(w, poll.recorded[i], poll.lookup, poll.limit, poll.reject)
  {
    seq(|poll.recorded|, i requires 0 <= i < |poll.recorded| => InsertedEvent(w, poll.recorded[i], poll.lookup,
        poll.limit, poll.reject))
  }

  function StepOf(w: World, poll: Poll): Step {
    Record(poll.generation, poll.now, InsertedEvents(w, poll), poll.triggers, w.statusText(StatusOf(poll.lookup)))
  }

  /** Batches are recorded by polls only; every other transaction is as it is. */
  ghost predicate WrittenStep(w: World, step: Step) {
    step.Record? ==> exists poll :: PollOk(poll) && step == StepOf(w, poll)
  }

  ghost predicate WrittenSteps(w: World, steps: seq<Step>) {
    forall i | 0 <= i < |steps| :: WrittenStep(w, steps[i])
  }

  // ---------------------------------------------------------------- written rows

  /** A stored value that reads as a truncation marker, was not cut when the event was
      written, and is not the value that the marker speaks of. */
  predicate Confused(w: World, raw: string, meta: ValueMeta) {
    match w.marker(raw)
    case None => false
    case Some(m) => !meta.truncated && !(meta.hash == m.hash && meta.bytes == m.bytes)
  }

  predicate Clear(w: World, e: Event) {
    !Confused(w, e.row.body.before, e.row.before) && !Confused(w, e.row.body.after, e.row.after)
  }

  /** The verifier accepts the metadata of a written side exactly when it is not confused. */
  lemma WrittenSide(w: World, side: Side, limit: nat, reject: nat)
    requires SoundWorld(w) && SideOk(side)
    ensures var (raw, meta) := Bounded(w, RawOf(w, side), HashOf(w, side), limit, reject);
      MetaExplained(w, raw, meta) <==> !Confused(w, raw, meta)
  {
    var raw, hash := RawOf(w, side), HashOf(w, side);
    assert side.Whole? ==> IsHash(w.env.sha(side.raw));
    assert side.Cut? ==> w.marker(raw) == Some(Marker(side.hash, side.bytes));
    assert raw != "" ==> |raw| > 0;
  }

  ghost predicate EventWritten(w: World, e: Event) {
    && w.decodeFields(e.row.body.changes).Some? && e.row.body.changes != ""
    && (MetaExplained(w, e.row.body.before, e.row.before) <==> !Confused(w, e.row.body.before, e.row.before))
    && (MetaExplained(w, e.row.body.after, e.row.after) <==> !Confused(w, e.row.body.after, e.row.after))
  }

  lemma InsertedWritten(w: World, poll: Poll, e: Event, i: nat)
    requires SoundWorld(w) && PollOk(poll) && i < |poll.recorded| && e.row == InsertedEvents(w, poll)[i]
    ensures EventWritten(w, e)
    ensures e.row.body.attribution.Some? ==> poll.lookup == Done
  {
    hide MetaExplained, Confused, Bounded;
    var r := poll.recorded[i];
    assert r in poll.recorded;
    WrittenSide(w, r.before, poll.limit, poll.reject);
    WrittenSide(w, r.after, poll.limit, poll.reject);
    assert w.decodeFields(w.fieldsText(r.fields)) == Some(r.fields);
  }

  /** A batch that a poll recorded: ledgered, with events, all of them written, and a
      lookup status that covers its attributions. */
  ghost predicate BatchWritten(w: World, db: Db, id: int)
    requires id in db.batches
  {
    && Ledgered(db.ledger, id)
    && EventsOf(db.events, id) != []
    && w.attributed(db.batches[id].attributionStatus) != Other
    && forall e | e in EventsOf(db.events, id) ::
         EventWritten(w, e) && (e.row.body.attribution.Some?
             ==> w.attributed(db.batches[id].attributionStatus) == Complete)
  }

  /** Every batch recorded since `from` is written. */
  ghost predicate Written(w: World, db: Db, from: int) {
    from <= db.nextBatch && forall id | id in db.batches && id >= from :: BatchWritten(w, db, id)
  }

  // ---------------------------------------------------------------- runs

  /** No transaction changes the rows of a batch that it leaves in place. */
  lemma StepKeepsRows(env: Instance, db: Db, step: Step, id: int)
    requires Sound(env) && Inv(env, db)
    requires id in db.batches && id in Apply(env, db, step).batches
    ensures EventsOf(Apply(env, db, step).events, id) == EventsOf(db.events, id)
    ensures Apply(env, db, step).batches[id] == db.batches[id]
  {
    hide FirstIds, CheckpointDecision, OrphanLinks;
    match step
    case Record(generation, now, changes, triggers, status) =>
      InsertedKeepsPayload(db, generation, now, changes, triggers, status, id);
    case BackfillChunk(cutoff) =>
      var ids := FirstIds(Eligible(db, cutoff), BACKFILL_CHUNK);
      if ids != [] && AppendAll(env, db, ids).Some? { AppendAllKeeps(env, db, ids); }
    case ExpireBatches(cutoff, ids) =>
      if id !in ids { RemovedKeepsPayload(db, ids, id); }
    case ExpireEvents(cutoff, gone) =>
      if gone <= OrphanEvents(db, cutoff) { OrphansKeepPayload(db, cutoff, gone, id); }
    case _ =>
  }

  lemma StepBatches(env: Instance, db: Db, step: Step, id: int)
    requires Sound(env) && Inv(env, db)
    requires id in Apply(env, db, step).batches && id !in db.batches
    ensures step.Record? && id == db.nextBatch
    ensures step.changes != [] && AppendEntry(env,
        Inserted(db, step.generation, step.now, step.changes, step.triggers, step.status), id).Some?
    ensures EventsOf(Apply(env, db, step).events, id) ==
        Stored(step.changes, db.nextEvent, id, step.generation, step.now)
    ensures Apply(env, db, step).batches[id].attributionStatus == step.status
    ensures Ledgered(Apply(env, db, step).ledger, id)
  {
    hide FirstIds, CheckpointDecision, OrphanLinks, EventsOf, LedgerDigest, HashTaken;
    match step
    case Record(generation, now, changes, triggers, status) =>
      InsertedIds(db, generation, now, changes, triggers, status);
      LedgerStore.AppendLedgers(env, Inserted(db, generation, now, changes, triggers, status), db.nextBatch);
    case BackfillChunk(cutoff) =>
      var ids := FirstIds(Eligible(db, cutoff), BACKFILL_CHUNK);
      if ids != [] && AppendAll(env, db, ids).Some? { AppendAllKeeps(env, db, ids); }
    case _ =>
  }

  lemma StepNextBatch(env: Instance, db: Db, step: Step)
    requires Sound(env) && Inv(env, db)
    ensures db.nextBatch <= Apply(env, db, step).nextBatch
  {
    hide FirstIds, CheckpointDecision, OrphanLinks, EventsOf, LedgerDigest;
    match step
    case BackfillChunk(cutoff) =>
      var ids := FirstIds(Eligible(db, cutoff), BACKFILL_CHUNK);
      if ids != [] && AppendAll(env, db, ids).Some? { AppendAllKeeps(env, db, ids); }
    case _ =>
  }

  lemma StepWritten(w: World, db: Db, step: Step, from: int)
    requires SoundWorld(w) && Inv(w.env, db) && Written(w, db, from) && WrittenStep(w, step)
    ensures Written(w, Apply(w.env, db, step), from)
  {
    hide Apply, EventWritten, EventsOf, Inv, WrittenStep, Ledgered;
    var next := Apply(w.env, db, step);
    StepNextBatch(w.env, db, step);
    StepKeeps(w.env, db, step);
    forall id | id in next.batches && id >= from ensures BatchWritten(w, next, id) {
      if id in db.batches {
        StepKeepsRows(w.env, db, step, id);
        LedgerStore.LedgeredExtends(db.ledger, next.ledger, id);
      } else {
        StepBatches(w.env, db, step, id);
        NewBatchWritten(w, db, step, id);
      }
    }
  }

  lemma NewBatchWritten(w: World, db: Db, step: Step, id: int)
    requires SoundWorld(w) && WrittenStep(w, step) && step.Record? && step.changes != []
    ensures var events := Stored(step.changes, db.nextEvent, id, step.generation, step.now);
      && events != [] && w.attributed(step.status) != Other
      && forall e | e in events ::
          EventWritten(w, e) && (e.row.body.attribution.Some? ==> w.attributed(step.status) == Complete)
  {
    hide EventWritten, Bounded;
    var poll :| PollOk(poll) && step == StepOf(w, poll);
    var events := Stored(step.changes, db.nextEvent, id, step.generation, step.now);
    assert w.attributed(w.statusText(StatusOf(poll.lookup))) == StatusOf(poll.lookup);
    forall e | e in events
      ensures EventWritten(w, e) && (e.row.body.attribution.Some? ==> w.attributed(step.status) == Complete)
    {
      var i :| 0 <= i < |events| && events[i] == e;
      InsertedWritten(w, poll, e, i);
    }
  }

  lemma {:induction false} RunWritten(w: World, db: Db, steps: seq<Step>, from: int)
    requires SoundWorld(w) && Inv(w.env, db) && Written(w, db, from) && WrittenSteps(w, steps)
    ensures Inv(w.env, Run(w.env, db, steps)) && Written(w, Run(w.env, db, steps), from)
    decreases |steps|
  {
    hide Apply, Inv, Written, WrittenStep;
    if steps != [] {
      assert WrittenStep(w, steps[0]);
      StepKeeps(w.env, db, steps[0]);
      StepWritten(w, db, steps[0], from);
      RunWritten(w, Apply(w.env, db, steps[0]), steps[1..], from);
    }
  }

  lemma FreshInv(env: Instance, db: Db)
    requires Fresh(db)
    ensures Inv(env, db)
  {
  }

  lemma FreshWritten(w: World, db: Db)
    requires Fresh(db)
    ensures Written(w, db, db.nextBatch)
  {
    hide BatchWritten;
  }

  ghost predicate OnlySince(db: Db, from: int) {
    from <= db.nextBatch && forall id | id in db.batches :: id >= from
  }

  lemma {:induction false} RunOnlySince(env: Instance, db: Db, steps: seq<Step>, from: int)
    requires Sound(env) && Inv(env, db) && OnlySince(db, from)
    ensures OnlySince(Run(env, db, steps), from)
    decreases |steps|
  {
    hide Apply, Inv;
    if steps != [] {
      var next := Apply(env, db, steps[0]);
      StepKeeps(env, db, steps[0]);
      StepNextBatch(env, db, steps[0]);
      forall id | id in next.batches && id !in db.batches ensures id >= from { StepBatches(env, db, steps[0], id); }
      RunOnlySince(env, next, steps[1..], from);
    }
  }

  // ---------------------------------------------------------------- acceptance over runs

  lemma WrittenExplained(w: World, db: Db, filter: Filter, id: int)
    requires id in db.batches && BatchWritten(w, db, id)
    ensures Readable(w, ShownOf(db, filter, id))
    ensures BatchExplained(w, db, filter, id) <==> forall e | e in ShownOf(db, filter, id) :: Clear(w, e)
  {
    hide MetaExplained, Confused, EventsOf, Selected, Ledgered;
    assert forall e | e in ShownOf(db, filter, id) :: e in EventsOf(db.events, id) && EventWritten(w, e);
  }

  ghost predicate AllClear(w: World, db: Db, filter: Filter, ids: seq<int>) {
    forall id, e | id in ids && id in db.batches && e in ShownOf(db, filter, id) :: Clear(w, e)
  }

  lemma PackIdsStored(q: Request, cursor: int, now: int, pack: Evidence)
    requires q.EndsAs(cursor, now, Issued(pack))
    ensures forall id | id in IdsOf(pack.content.batches) :: id in q.db.batches && id in q.Catalog().ids
  {
    hide ExportEndsAs, IdsOf, ShownOf;
    PartIsTopRun(q, cursor, now, pack);
    forall id | id in IdsOf(pack.content.batches)
      ensures id in q.db.batches && id in q.Catalog().ids
    {
      DueMatches(q, cursor, id);
    }
  }

  /** Since the start of a run, whatever was stored before: a pack that carries batches of
      that run only is accepted if and only if no shown event has a confused side. */
  lemma SincePackAccepted(q: Request, start: Db, steps: seq<Step>, cursor: int, now: int, pack: Evidence)
    requires SoundWorld(q.w) && Fresh(start) && WrittenSteps(q.w, steps) && q.db == Run(q.w.env, start, steps)
    requires q.EndsAs(cursor, now, Issued(pack)) && forall id | id in IdsOf(pack.content.batches) ::
        id >= start.nextBatch
    ensures Accepts(q.w, pack, Some(q.w.publicBytes)) <==> AllClear(q.w, q.db, q.filter, IdsOf(pack.content.batches))
  {
    hide ExportEndsAs, IdsOf, Run, Accepts, Inv, BatchWritten, BatchExplained, ShownOf, Clear;
    FreshInv(q.w.env, start);
    FreshWritten(q.w, start);
    RunWritten(q.w, start, steps, start.nextBatch);
    IssuedPackAccepted(q, cursor, now, pack);
    PackIdsStored(q, cursor, now, pack);
    forall id | id in IdsOf(pack.content.batches)
      ensures BatchExplained(q.w, q.db, q.filter, id) <==> forall e | e in ShownOf(q.db, q.filter, id) :: Clear(q.w, e)
    {
      WrittenExplained(q.w, q.db, q.filter, id);
    }
  }

  /** A new installation: in every state that polls, backfill, retention and checkpoints
      reach in any order, every pack an export issues is accepted by the verifier if and
      only if no shown value reads as a truncation marker, was stored uncut, and differs
      from that marker in hash or length. */
  lemma RunPackAccepted(q: Request, start: Db, steps: seq<Step>, cursor: int, now: int, pack: Evidence)
    requires SoundWorld(q.w) && Fresh(start) && start.batches == map[]
    requires WrittenSteps(q.w, steps) && q.db == Run(q.w.env, start, steps)
    requires q.EndsAs(cursor, now, Issued(pack))
    ensures Accepts(q.w, pack, Some(q.w.publicBytes)) <==> AllClear(q.w, q.db, q.filter, IdsOf(pack.content.batches))
  {
    hide ExportEndsAs, IdsOf, Run, Accepts, Inv, AllClear;
    FreshInv(q.w.env, start);
    RunOnlySince(q.w.env, start, steps, start.nextBatch);
    PackIdsStored(q, cursor, now, pack);
    SincePackAccepted(q, start, steps, cursor, now, pack);
  }

  // ---------------------------------------------------------------- outcomes over runs

  /** Batches recorded by polls always have something to show. */
  lemma WrittenShows(w: World, db: Db, filter: Filter, cost: int -> nat, from: int, id: int)
    requires Written(w, db, from) && id >= from && id in CatalogOf(db, filter, cost).ids
    ensures CatalogOf(db, filter, cost).shows(id)
  {
    hide EventsOf, EventWritten, Ledgered;
    assert BatchWritten(w, db, id);
    var e := EventsOf(db.events, id)[0];
    assert e in EventsOf(db.events, id);
  }

  /** A page that stops an export for lack of a continuation holds a batch without events
      that is older than the run. */
  lemma OnlyLegacyBlocks(q: Request, from: int, cursor: int)
    requires Written(q.w, q.db, from)
    requires q.Page(cursor).batches == [] && q.Page(cursor).hasNext && !q.Page(cursor).truncated
    ensures exists id :: id in q.Catalog().ids && id < from && !q.Catalog().shows(id)
  {
    hide History.Below, History.Above, Sets.TopIds, ShownOf, Written, History.Charge;
    var cat, limit := q.Catalog(), ExportLimit(q.limit);
    var candidates := History.Cut(Sets.TopIds(History.Below(cat, cursor), limit + 1), limit);
    var fetched := Sets.TopIds(History.Below(cat, cursor), limit + 1);
    assert candidates[0] == fetched[0] && fetched[0] in fetched;
    var id := candidates[0];
    HistoryPaging.BelowIn(cat, cursor, id);
    FirstExamined(cat, candidates);
    if id >= from { WrittenShows(q.w, q.db, q.filter, q.cost, from, id); }
  }

  lemma FirstExamined(cat: History.Catalog, candidates: seq<int>)
    requires candidates != [] && History.Fit(cat, candidates, MAX_BYTES, 0) == |candidates|
    requires History.Showing(cat, candidates[..|candidates|]) == []
    ensures !cat.shows(candidates[0])
  {
    assert candidates[..|candidates|] == candidates;
  }

  /** So on a new installation every export is issued or too large: it never mixes
      batches, meets an unreadable row, or stops without a continuation. */
  lemma RunOutcomes(q: Request, start: Db, steps: seq<Step>, cursor: int, now: int, outcome: Outcome)
    requires SoundWorld(q.w) && Fresh(start) && start.batches == map[]
    requires WrittenSteps(q.w, steps) && q.db == Run(q.w.env, start, steps)
    requires q.EndsAs(cursor, now, outcome)
    ensures outcome.Issued? || outcome.TooLarge?
  {
    hide Run, Inv, BatchWritten, History.PageBelow, EndsAs, Pack.Exported, FetchedLinks, AllReadable, Uniform, Build,
        WithinCaps;
    var page := q.Page(cursor);
    FreshInv(q.w.env, start);
    FreshWritten(q.w, start);
    RunWritten(q.w, start, steps, start.nextBatch);
    RunOnlySince(q.w.env, start, steps, start.nextBatch);
    PageStored(q, cursor);
    WrittenReadable(q.w, q.db, q.filter, page.batches);
    if !(page.batches == [] && page.truncated) {
      WrittenUniform(q.w, q.db, q.filter, page.batches);
      var r := ReadingOf(q.w, q.db, q.filter, page);
      PageCursor(q, cursor);
      if r.batches == [] && page.hasNext { OnlyLegacyBlocks(q, start.nextBatch, cursor); }
      if r.batches != [] && CapOf(r) > 0 { PageBuilds(q, cursor, now, CapOf(r)); } else if r.batches == [] {
        EmptyBuilds(q.w, r, now);
      }
      EndingOutcomes(q.w, r, now, outcome);
    }
  }

  lemma EndingOutcomes(w: World, r: Reading, now: int, outcome: Outcome)
    requires EndsAs(w, r, now, outcome) && Uniform(r.batches)
    requires (CapOf(r) == 0 && r.batches != []) || Build(w, r, now, CapOf(r)).Some?
    ensures outcome.Issued? || outcome.TooLarge?
  {
    hide Build, WithinCaps;
  }

  lemma PageStored(q: Request, cursor: int)
    ensures forall id | id in q.Page(cursor).batches :: id in q.db.batches && q.Catalog().shows(id)
    ensures Inv(q.w.env, q.db) ==> History.Positive(q.Catalog())
  {
    hide History.PageBelow, ShownOf;
    var low := HistoryPaging.OlderPageIsTopRun(q.Catalog(), cursor, ExportLimit(q.limit), MAX_BYTES);
  }

  lemma WrittenReadable(w: World, db: Db, filter: Filter, ids: seq<int>)
    requires forall id | id in ids :: id in db.batches && BatchWritten(w, db, id)
    ensures AllReadable(w, db, filter, ids)
  {
    hide BatchWritten, Readable, ShownOf;
    forall id | id in ids
      ensures id in db.batches && Readable(w, ShownOf(db, filter, id))
    {
      WrittenExplained(w, db, filter, id);
    }
  }

  lemma WrittenUniform(w: World, db: Db, filter: Filter, ids: seq<int>)
    requires Inv(w.env, db) && AllReadable(w, db, filter, ids)
    requires forall id | id in ids :: id in db.batches && BatchWritten(w, db, id)
    ensures Uniform(BatchesOf(w, db, filter, ids))
  {
    hide BatchWritten, Readable, ShownOf, Inv, Pack.Exported, EntryOk, LinkMatches, Bound;
    var batches := BatchesOf(w, db, filter, ids);
    forall b | b in batches ensures b.sequence > 0 {
      var i :| 0 <= i < |batches| && batches[i] == b;
      assert ids[i] in ids;
      LedgeredNow(w, db, ids[i]);
      ExportedEntry(w, db, filter, ids[i]);
    }
  }

  lemma LedgeredNow(w: World, db: Db, id: int)
    requires id in db.batches && BatchWritten(w, db, id)
    ensures Ledgered(db.ledger, id)
  {
  }

  // ---------------------------------------------------------------- whole exports over runs

  /** Ledger order is batch order. */
  ghost predicate InOrder(ledger: seq<Entry>) {
    forall i, j | 0 <= i < j < |ledger| :: ledger[i].batchId < ledger[j].batchId
  }

  ghost predicate AllLedgered(db: Db) {
    forall id | id in db.batches :: Ledgered(db.ledger, id)
  }

  lemma {:induction false} NothingToAppend(env: Instance, db: Db, ids: seq<int>)
    requires forall id | id in ids :: Ledgered(db.ledger, id)
    ensures AppendAll(env, db, ids) == Some(db)
    decreases |ids|
  {
    hide Ledgered;
    if ids != [] { NothingToAppend(env, db, ids[1..]); }
  }

  lemma StepInOrder(env: Instance, db: Db, step: Step)
    requires Sound(env) && Inv(env, db) && AllLedgered(db) && InOrder(db.ledger)
    ensures InOrder(Apply(env, db, step).ledger)
  {
    hide FirstIds, CheckpointDecision, OrphanLinks, EventsOf, LedgerDigest, HashTaken, Ledgered;
    match step
    case BackfillChunk(cutoff) =>
      var ids := FirstIds(Eligible(db, cutoff), BACKFILL_CHUNK);
      NothingToAppend(env, db, ids);
    case _ =>
  }

  lemma WrittenLedgered(w: World, db: Db, from: int)
    requires Written(w, db, from) && OnlySince(db, from)
    ensures AllLedgered(db)
  {
    hide EventsOf, EventWritten, Ledgered;
    forall id | id in db.batches ensures Ledgered(db.ledger, id) { LedgeredNow(w, db, id); }
  }

  lemma {:induction false} RunInOrder(w: World, db: Db, steps: seq<Step>, from: int)
    requires SoundWorld(w) && Inv(w.env, db) && Written(w, db, from) && WrittenSteps(w, steps)
    requires OnlySince(db, from) && InOrder(db.ledger)
    ensures InOrder(Run(w.env, db, steps).ledger)
    decreases |steps|
  {
    hide Apply, Inv, Written, WrittenStep, OnlySince, InOrder;
    if steps != [] {
      var step := steps[0];
      assert WrittenStep(w, step);
      WrittenLedgered(w, db, from);
      StepInOrder(w.env, db, step);
      StepKeeps(w.env, db, step);
      StepWritten(w, db, step, from);
      RunOnlySince(w.env, db, [step], from);
      assert Run(w.env, db, [step]) == Run(w.env, Apply(w.env, db, step), []) == Apply(w.env, db, step);
      RunInOrder(w, Apply(w.env, db, step), steps[1..], from);
    }
  }

  /** In ledger order a newer batch has the larger sequence. */
  lemma OrderReaches(env: Instance, db: Db, ids: set<int>)
    requires Chained(env, db.ledger) && InOrder(db.ledger) && forall id | id in ids :: Ledgered(db.ledger, id)
    ensures Reaches(db.ledger, ids)
  {
    hide EntryOk, Ledgered, Chained;
    forall x, y | x in ids && y in ids && y < x ensures SequenceOf(db.ledger, y) <= SequenceOf(db.ledger, x) {
      EntryForIndex(env, db.ledger, x);
      EntryForIndex(env, db.ledger, y);
      var i, j := SequenceOf(db.ledger, x) - 1, SequenceOf(db.ledger, y) - 1;
      assert db.ledger[i].batchId == x && db.ledger[j].batchId == y;
    }
  }

  /** No matching batch alone exceeds a budget, and neither does a pack of none. */
  ghost predicate AllFitAlone(q: Request, now: int) {
    && (forall id | id in q.Catalog().ids && id in q.db.batches && Readable(q.w, ShownOf(q.db, q.filter, id)) ::
        FitsAlone(q, id, now))
    && q.w.size(EmptyPack(q, now)) <= MAX_BYTES
  }

  lemma CatalogStored(q: Request)
    ensures forall id | id in q.Catalog().ids :: id in q.db.batches
  {
    hide ShownOf;
  }

  lemma WrittenWithinBudgets(q: Request, from: int, now: int)
    requires Written(q.w, q.db, from) && OnlySince(q.db, from) && AllFitAlone(q, now)
    ensures AllWithinBudgets(q, now)
  {
    hide EventsOf, EventWritten, Ledgered, CatalogOf, ShownOf, Readable, FitsAlone, BatchWritten;
    CatalogStored(q);
    forall id | id in q.Catalog().ids ensures WithinBudgets(q, id, now) {
      WrittenShows(q.w, q.db, q.filter, q.cost, from, id);
      WrittenExplained(q.w, q.db, q.filter, id);
    }
  }

  /** The whole export of a new installation: when no batch alone exceeds a budget,
      following the continuation cursors ends, has covered every due batch exactly once,
      newest first, and each part is accepted if and only if its shown values are clear. */
  lemma RunExportsAll(q: Request, start: Db, steps: seq<Step>, cursor: int, clock: nat -> int)
    returns (packs: seq<Evidence>)
    requires SoundWorld(q.w) && Fresh(start) && start.batches == map[]
    requires WrittenSteps(q.w, steps) && q.db == Run(q.w.env, start, steps)
    requires forall k: nat :: AllFitAlone(q, clock(k))
    ensures Completes(q, cursor, clock, 0, packs)
    ensures HistoryPaging.Descending(IdsOfAll(packs)) && forall id :: id in IdsOfAll(packs) <==> q.Due(cursor, id)
    ensures forall i | 0 <= i < |packs| ::
        Accepts(q.w, packs[i], Some(q.w.publicBytes))
        <==> AllClear(q.w, q.db, q.filter, IdsOf(packs[i].content.batches))
  {
    hide Run, Inv, Written, OnlySince, InOrder, Completes, AllFitAlone, Accepts, AllClear, IdsOf, IdsOfAll, CatalogOf,
        Reaches, AllWithinBudgets, Ledgered;
    var from := start.nextBatch;
    FreshInv(q.w.env, start);
    FreshWritten(q.w, start);
    RunWritten(q.w, start, steps, from);
    StartOnlySince(start);
    RunOnlySince(q.w.env, start, steps, from);
    RunInOrder(q.w, start, steps, from);
    WrittenLedgered(q.w, q.db, from);
    CatalogStored(q);
    InvChained(q.w.env, q.db);
    OrderReaches(q.w.env, q.db, q.Catalog().ids);
    forall k: nat ensures AllWithinBudgets(q, clock(k)) { WrittenWithinBudgets(q, from, clock(k)); }
    packs := BudgetsCoverAll(q, cursor, clock);
    forall i | 0 <= i < |packs|
      ensures Accepts(q.w, packs[i], Some(q.w.publicBytes))
          <==> AllClear(q.w, q.db, q.filter, IdsOf(packs[i].content.batches))
    {
      var at, now := PartAt(q, cursor, clock, 0, packs, i);
      RunPackAccepted(q, start, steps, at, now, packs[i]);
    }
  }

  lemma StartOnlySince(start: Db)
    requires Fresh(start) && start.batches == map[]
    ensures OnlySince(start, start.nextBatch) && InOrder(start.ledger)
  {
  }

  /** Each part of a complete export was issued from some cursor at some time. */
  lemma {:induction false} PartAt(q: Request, cursor: int, clock: nat -> int, k: nat, packs: seq<Evidence>, i: nat)
    returns (at: int, now: int)
    requires Completes(q, cursor, clock, k, packs) && i < |packs|
    ensures q.EndsAs(at, now, Issued(packs[i]))
    decreases i
  {
    hide ExportEndsAs;
    TicksCons(clock, k, |packs|);
    if i == 0 { at, now := cursor, clock(k); } else {
      at, now := PartAt(q, packs[0].content.nextCursor, clock, k + 1, packs[1..], i - 1);
    }
  }
}
