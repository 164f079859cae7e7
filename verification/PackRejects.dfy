/** The packs that the verifier refuses and the exports that stop, on stores that a new
    installation or one with old rows reaches.
 */
module PackRejects {
  import opened Crypto
  import opened LedgerSpec
  import opened LedgerInvariant
  import opened Pack
  import opened PackVerify
  import opened PackExport
  import opened PackComplete
  import opened PackTheorem
  import opened PackChain
  import opened PackCovers
  import opened PackRuns
  import History
  import HistoryPaging
  import LedgerStore
  import Sets

  const SNAPSHOT_BYTES := 1048576
  const EVENT_VALUE_BYTES := 524288
  const REJECT_BYTES := 4194304

  function EmptyDb(): Db {
    Db(map[], [], {}, [], "", 1, 1, 0, None, [])
  }

  /** The store after the first poll of a new installation. */
  function AfterFirst(w: World, poll: Poll): Db {
    Run(w.env, EmptyDb(), [StepOf(w, poll)])
  }

  /** Everything is selected. */
  ghost predicate SelectsAll(filter: Filter) {
    !filter.narrowed && forall id, row :: filter.batch(id, row)
  }

  lemma EmptyFresh()
    ensures Fresh(EmptyDb())
  {
  }

  lemma {:induction false} SelectedAll(filter: Filter, events: seq<Event>)
    requires !filter.narrowed
    ensures Selected(filter, events) == events
    decreases |events|
  {
    if events != [] { SelectedAll(filter, events[1..]); }
  }

  /** The first poll with a change leaves one ledgered batch with exactly its events. */
  lemma FirstBatch(w: World, poll: Poll)
    requires SoundWorld(w) && poll.recorded != []
    ensures var db := AfterFirst(w, poll);
      && db.batches.Keys == {1} && |db.ledger| == 1 && db.ledger[0].sequence == 1 && db.ledger[0].batchId == 1
      && EventsOf(db.events, 1) == Stored(InsertedEvents(w, poll), 1, 1, poll.generation, poll.now)
  {
    var step := StepOf(w, poll);
    EmptyFresh();
    FreshInv(w.env, EmptyDb());
    assert step.changes != [];
    InsertedIds(EmptyDb(), poll.generation, poll.now, step.changes, poll.triggers, step.status);
    assert Run(w.env, EmptyDb(), [step]) == Run(w.env, Apply(w.env, EmptyDb(), step), []);
  }

  /** The reading an export of the newest batches makes of that store. */
  ghost function FirstReading(q: Request): Reading
    requires AllReadable(q.w, q.db, q.filter, [1])
  {
    var batches := BatchesOf(q.w, q.db, q.filter, [1]);
    Reading(batches, FetchedLinks(q.db.ledger, batches), false, 0, LedgerHead(q.db))
  }

  ghost predicate FirstExport(q: Request, poll: Poll) {
    && SoundWorld(q.w) && PollOk(poll) && poll.recorded != [] && |poll.recorded| <= MAX_EVENTS
    && q.db == AfterFirst(q.w, poll) && SelectsAll(q.filter) && q.cost(1) <= MAX_BYTES
  }

  lemma OnlyId(ids: set<int>, n: nat)
    requires ids == {1} && n > 0
    ensures Sets.TopIds(ids, n) == [1]
  {
    hide Sets.TopIds;
    var r := Sets.TopIds(ids, n);
    Sets.DistinctSize(r);
    assert r[0] in ids;
    assert (set id | id in r) == {1};
    assert |{1}| == 1;
  }

  lemma FirstCatalog(q: Request, poll: Poll)
    requires FirstExport(q, poll)
    ensures q.Catalog().ids == {1} && q.Catalog().shows(1) && q.Catalog().cost == q.cost
    ensures ShownOf(q.db, q.filter, 1) == Stored(InsertedEvents(q.w, poll), 1, 1, poll.generation, poll.now)
    ensures History.Positive(q.Catalog())
  {
    hide EventsOf, Stored, Selected;
    FirstBatch(q.w, poll);
    SelectedAll(q.filter, EventsOf(q.db.events, 1));
    forall id ensures id in q.Catalog().ids <==> id in {1} {}
    assert |ShownOf(q.db, q.filter, 1)| == |poll.recorded|;
  }

  lemma FirstPage(q: Request, poll: Poll)
    requires FirstExport(q, poll)
    ensures var page := q.Page(0); page.batches == [1] && !page.hasNext && !page.truncated && page.nextCursor == 0
  {
    hide ShownOf, AfterFirst, InsertedEvents, CatalogOf;
    FirstCatalog(q, poll);
    var cat, n := q.Catalog(), ExportLimit(q.limit);
    assert History.Below(cat, 0) == {1};
    OnlyId(History.Below(cat, 0), n + 1);
    assert History.Fit(cat, [1], MAX_BYTES, 0) == 1;
    assert [1][..1] == [1];
    assert History.Showing(cat, [1]) == [1];
  }

  lemma FirstRun(q: Request, poll: Poll)
    requires FirstExport(q, poll)
    ensures Fresh(EmptyDb()) && WrittenSteps(q.w, [StepOf(q.w, poll)])
        && q.db == Run(q.w.env, EmptyDb(), [StepOf(q.w, poll)])
    ensures Inv(q.w.env, q.db) && 1 in q.db.batches && BatchWritten(q.w, q.db, 1)
  {
    hide Run, Inv, BatchWritten, StepOf;
    var steps := [StepOf(q.w, poll)];
    EmptyFresh();
    FreshInv(q.w.env, EmptyDb());
    FreshWritten(q.w, EmptyDb());
    assert WrittenStep(q.w, steps[0]);
    RunWritten(q.w, EmptyDb(), steps, 1);
    FirstBatch(q.w, poll);
  }

  /** The export of that store can start, once its batch fits the byte limit. */
  lemma FirstExportable(q: Request, poll: Poll, now: int)
    requires FirstExport(q, poll)
    requires AllReadable(q.w, q.db, q.filter, [1]) ==> Fits(q.w, FirstReading(q), now, 1)
    ensures Exportable(q, 0, now)
  {
    hide AfterFirst, ShownOf, Inv, BatchWritten, FetchedLinks, History.PageBelow, Readable, Pack.Exported, Uniform,
        Run, WrittenSteps, WithinCaps, Fits, Chained;
    FirstRun(q, poll);
    FirstPage(q, poll);
    FirstCatalog(q, poll);
    WrittenReadable(q.w, q.db, q.filter, [1]);
    WrittenUniform(q.w, q.db, q.filter, [1]);
    var r := FirstReading(q);
    assert r == ReadingOf(q.w, q.db, q.filter, q.Page(0));
    ReadAt(q, 0, 0);
    InvChained(q.w.env, q.db);
    FirstReached(q.w.env, q.db.ledger, r.batches);
  }

  /** It then issues one pack, which carries that batch. */
  lemma FirstIssued(q: Request, poll: Poll, now: int, outcome: Outcome)
    requires FirstExport(q, poll) && q.EndsAs(0, now, outcome)
    requires AllReadable(q.w, q.db, q.filter, [1]) ==> Fits(q.w, FirstReading(q), now, 1)
    ensures outcome.Issued? && IdsOf(outcome.pack.content.batches) == [1]
  {
    hide AfterFirst, ShownOf, Exportable, ExportEndsAs, History.PageBelow, AllReadable, CatalogOf;
    FirstExportable(q, poll, now);
    FirstCatalog(q, poll);
    ExportableIssues(q, 0, now, outcome);
    var n := PartShape(q, 0, now, outcome.pack);
    FirstPage(q, poll);
    assert q.Page(0).batches[..1] == [1];
  }

  /** And the verifier accepts it if and only if no side of a recorded change is confused. */
  lemma FirstAccepted(q: Request, poll: Poll, now: int, outcome: Outcome)
    requires FirstExport(q, poll) && q.EndsAs(0, now, outcome)
    requires AllReadable(q.w, q.db, q.filter, [1]) ==> Fits(q.w, FirstReading(q), now, 1)
    ensures outcome.Issued?
    ensures Accepts(q.w, outcome.pack, Some(q.w.publicBytes)) <==>
      forall i | 0 <= i < |poll.recorded| ::
          Clear(q.w, Event(1 + i, 1, poll.generation, poll.now, InsertedEvents(q.w, poll)[i]))
  {
    hide AfterFirst, ShownOf, ExportEndsAs, AllReadable, Fits, Accepts, WrittenSteps, Run, Clear, Bounded, CatalogOf,
        IdsOf, InsertedEvents;
    FirstIssued(q, poll, now, outcome);
    FirstRun(q, poll);
    FirstCatalog(q, poll);
    RunPackAccepted(q, EmptyDb(), [StepOf(q.w, poll)], 0, now, outcome.pack);
    var shown := ShownOf(q.db, q.filter, 1);
    if AllClear(q.w, q.db, q.filter, [1]) {
      forall i | 0 <= i < |poll.recorded|
        ensures Clear(q.w, Event(1 + i, 1, poll.generation, poll.now, InsertedEvents(q.w, poll)[i]))
      {
        assert shown[i] in shown;
      }
    }
  }

  /** The change of one resource at the default limits. */
  ghost predicate DefaultPoll(poll: Poll) {
    PollOk(poll) && |poll.recorded| == 1 && poll.limit == EVENT_VALUE_BYTES && poll.reject == REJECT_BYTES
  }

  /** A resource is stored cut, because its value is longer than a snapshot may be, and then
      changes. The pack that carries the change is issued and the verifier refuses it: the
      row keeps the length of the marker beside the hash and marker of the value. */
  lemma OversizedThenChanged(q: Request, poll: Poll, long: string, now: int, outcome: Outcome)
    requires FirstExport(q, poll) && DefaultPoll(poll) && q.EndsAs(0, now, outcome)
    requires AllReadable(q.w, q.db, q.filter, [1]) ==> Fits(q.w, FirstReading(q), now, 1)
    requires |long| > SNAPSHOT_BYTES && poll.recorded[0].before == Snapshot(q.w, long, SNAPSHOT_BYTES, REJECT_BYTES)
    requires |RawOf(q.w, poll.recorded[0].before)| <= EVENT_VALUE_BYTES
    ensures outcome.Issued? && !Accepts(q.w, outcome.pack, Some(q.w.publicBytes))
  {
    hide FirstExport, ExportEndsAs, AllReadable, Fits, Accepts, FirstReading;
    FirstAccepted(q, poll, now, outcome);
    SoundFirst(q, poll);
    assert InsertedEvents(q.w, poll)[0] == InsertedEvent(q.w, poll.recorded[0], poll.lookup, poll.limit, poll.reject);
    assert !Clear(q.w, Event(1 + 0, 1, poll.generation, poll.now, InsertedEvents(q.w, poll)[0]));
  }

  /** A value that a provider returns in the form of a marker for something else is refused
      in the same way. */
  lemma MarkerShapedValue(q: Request, poll: Poll, value: string, now: int, outcome: Outcome)
    requires FirstExport(q, poll) && DefaultPoll(poll) && q.EndsAs(0, now, outcome)
    requires AllReadable(q.w, q.db, q.filter, [1]) ==> Fits(q.w, FirstReading(q), now, 1)
    requires |value| <= EVENT_VALUE_BYTES && poll.recorded[0].after == Whole(value)
    requires q.w.marker(value).Some? && q.w.marker(value).value != Marker(q.w.env.sha(value), |value|)
    ensures outcome.Issued? && !Accepts(q.w, outcome.pack, Some(q.w.publicBytes))
  {
    hide FirstExport, ExportEndsAs, AllReadable, Fits, Accepts, FirstReading;
    FirstAccepted(q, poll, now, outcome);
    assert InsertedEvents(q.w, poll)[0] == InsertedEvent(q.w, poll.recorded[0], poll.lookup, poll.limit, poll.reject);
    assert !Clear(q.w, Event(1 + 0, 1, poll.generation, poll.now, InsertedEvents(q.w, poll)[0]));
  }

  lemma SoundFirst(q: Request, poll: Poll)
    requires FirstExport(q, poll)
    ensures SoundWorld(q.w)
  {
  }

  // ---------------------------------------------------------------- stopped exports

  /** An upgraded store: the newer of its two batches has lost its events. */
  function UpgradedDb(older: BatchRow, newer: BatchRow, e: Event): Db {
    Db(map[1 := older, 2 := newer], [e], {}, [], "", 3, e.id + 1, 0, None, [])
  }

  lemma UpgradedCatalog(q: Request, older: BatchRow, newer: BatchRow, e: Event)
    requires q.db == UpgradedDb(older, newer, e) && e.batchId == 1 && SelectsAll(q.filter)
    ensures q.Catalog().ids == {1, 2} && q.Catalog().shows(1) && !q.Catalog().shows(2) && q.Catalog().cost == q.cost
  {
    assert EventsOf([], 1) == [] && EventsOf([], 2) == [];
    assert EventsOf(q.db.events, 1) == [e] && EventsOf(q.db.events, 2) == [];
    SelectedAll(q.filter, [e]);
    forall id ensures id in q.Catalog().ids <==> id in {1, 2} {}
  }

  lemma TopOfTwo()
    ensures Sets.TopIds({1, 2}, 2) == [2, 1]
  {
    hide Sets.TopIds;
    var r := Sets.TopIds({1, 2}, 2);
    Sets.TopCovers({1, 2});
    assert |{1, 2}| == 2;
    assert 1 in r && 2 in r;
  }

  /** Such a store is a lawful start; an export of one batch a part stops there at once with
      an error, although batch 1 is due and has an event. */
  lemma UpgradedStops(q: Request, older: BatchRow, newer: BatchRow, e: Event, now: int, outcome: Outcome)
    requires q.db == UpgradedDb(older, newer, e) && e.batchId == 1 && SelectsAll(q.filter)
    requires q.limit == 1 && q.cost(2) <= MAX_BYTES && q.EndsAs(0, now, outcome)
    ensures Fresh(q.db) && q.Due(0, 1) && outcome == NoContinuation
  {
    hide ShownOf, CatalogOf, ExportEndsAs;
    UpgradedCatalog(q, older, newer, e);
    TopOfTwo();
    var cat := q.Catalog();
    assert History.Below(cat, 0) == {1, 2};
    assert [2, 1][..1] == [2] && [2][..1] == [2];
    assert History.Fit(cat, [2], MAX_BYTES, 0) == 1;
    assert History.Showing(cat, [2]) == [];
    EmptyRunBlocksExport(q, 0, now, outcome);
  }
}
