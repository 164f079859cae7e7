/** What an issued pack shows of the store: which batches, which of their events, and every
    column of both, said on the stored rows alone.
 */
module PackShown {
  import opened Crypto
  import opened LedgerSpec
  import opened LedgerInvariant
  import opened Pack
  import opened PackVerify
  import opened PackExport
  import opened PackComplete
  import opened PackTheorem
  import opened PackChain
  import History
  import HistoryPaging

  /** The filter shows the event of the batch. */
  predicate Wanted(filter: Filter, id: int, e: Event) {
    e.batchId == id && (filter.narrowed ==> filter.event(e))
  }

  lemma {:induction false} OfBatch(events: seq<Event>, id: int)
    ensures forall e :: e in EventsOf(events, id) <==> e in events && e.batchId == id
    decreases |events|
  {
    if events != [] { OfBatch(events[1..], id); }
  }

  lemma {:induction false} SelectedExact(filter: Filter, events: seq<Event>)
    ensures forall e :: e in Selected(filter, events) <==> e in events && (filter.narrowed ==> filter.event(e))
    decreases |events|
  {
    if events != [] { SelectedExact(filter, events[1..]); }
  }

  /** The shown events of a batch are all that the filter wants, in the order of their IDs. */
  lemma ShownExact(db: Db, filter: Filter, id: int)
    requires OrderedById(db.events)
    ensures OrderedById(ShownOf(db, filter, id))
    ensures forall e :: e in ShownOf(db, filter, id) <==> e in db.events && Wanted(filter, id, e)
  {
    hide OrderedById, EventsOf, Selected;
    EventsOfOrdered(db.events, id);
    SelectedOrdered(filter, EventsOf(db.events, id));
    OfBatch(db.events, id);
    SelectedExact(filter, EventsOf(db.events, id));
  }

  lemma {:induction false} OrderedSize(events: seq<Event>)
    requires OrderedById(events)
    ensures |set e | e in events| == |events|
    decreases |events|
  {
    if events == [] {
      assert (set e | e in events) == {};
    } else {
      var n := |events| - 1;
      OrderedSize(events[..n]);
      assert events[n] !in events[..n];
      assert (set e | e in events) == (set e | e in events[..n]) + {events[n]};
    }
  }

  // ---------------------------------------------------------------- one exported batch

  /** A stored field list as a pack shows it: nothing when the text is empty, otherwise
      what it decodes to, counted when its total is missing. */
  ghost predicate ShowsFields(w: World, shown: Fields, changes: string) {
    if changes == "" then shown == Fields([], false, 0)
    else exists f | w.decodeFields(changes) == Some(f) ::
      shown == Fields(f.fields, f.truncated, if f.total == 0 then |f.fields| else f.total)
  }

  /** The columns of an event as a pack shows them; its values and field list in display
      form. */
  ghost predicate ShowsEvent(w: World, x: ShownEvent, e: Event) {
    && x.id == e.id && x.batchId == e.batchId && x.generation == e.generation && x.observedAt == e.observedAt
    && x.collector == e.row.body.collector && x.eventType == e.row.body.eventType
    && x.resourceId == e.row.body.resourceId && x.name == e.row.body.name
    && ShowsFields(w, x.fields, e.row.body.changes)
    && x.before == w.display(e.row.body.before) && x.after == w.display(e.row.body.after)
    && x.severity == e.row.severity && x.muted == e.row.body.muted && x.attribution == e.row.body.attribution
  }

  lemma ExportedEvents(w: World, db: Db, filter: Filter, id: int)
    requires id in db.batches && Readable(w, ShownOf(db, filter, id))
    ensures var events, shown := Exported(w, db, filter, id).events, ShownOf(db, filter, id);
      ShowsAll(w, events, shown)
  {
    hide ShownOf, EntryFor, TriggersOf, Payload, Completed;
  }

  lemma ExportedRow(w: World, db: Db, filter: Filter, id: int)
    requires id in db.batches && Readable(w, ShownOf(db, filter, id))
    ensures var b, row := Exported(w, db, filter, id), db.batches[id];
      && b.id == id && b.generation == row.generation && b.observedAt == row.observedAt && b.triggerId == row.triggerId
      && b.attributionStatus == row.attributionStatus && b.triggerIds == TriggersOf(db.links, id, row.triggerId)
      && b.changeCount == (if filter.narrowed then |ShownOf(db, filter, id)| else row.changeCount)
  {
    hide ShownOf, EntryFor, TriggersOf, Payload, Shown;
  }

  /** The ledger columns of an exported batch are those of its entry, with the complete
      payload; without an entry they are empty. */
  predicate ShowsEntry(w: World, db: Db, b: Batch)
    requires b.id in db.batches
  {
    if Ledgered(db.ledger, b.id) then
      && Entry(b.sequence, b.id, b.prevHash, b.hash, b.signature, b.keyId) in db.ledger
      && b.payload == w.env.encode(Payload(db, b.id))
    else b.sequence == 0 && b.prevHash == "" && b.hash == "" && b.signature == "" && b.keyId == "" && b.payload == ""
  }

  lemma ExportedLedger(w: World, db: Db, filter: Filter, id: int)
    requires Inv(w.env, db) && id in db.batches && Readable(w, ShownOf(db, filter, id))
    ensures ShowsEntry(w, db, Exported(w, db, filter, id))
  {
    hide ShownOf, TriggersOf, Payload, Shown, IdsBelow, Anchored, Bound;
    EntryForIndex(w.env, db.ledger, id);
  }

  /** The columns of a carried batch; under event terms its change count is the number of
      events that the filter wants. */
  ghost predicate FaithfulRow(q: Request, b: Batch)
    requires b.id in q.db.batches
  {
    var row := q.db.batches[b.id];
    && b.generation == row.generation && b.observedAt == row.observedAt && b.attributionStatus == row.attributionStatus
    && b.triggerId == row.triggerId && b.triggerIds == TriggersOf(q.db.links, b.id, row.triggerId)
    && b.changeCount ==
         (if q.filter.narrowed then |set e | e in q.db.events && Wanted(q.filter, b.id, e)| else row.changeCount)
  }

  /** The events of a carried batch: exactly those the filter wants, in the order of their
      IDs, each once. */
  ghost predicate FaithfulEvents(q: Request, b: Batch) {
    && (forall i, j | 0 <= i < j < |b.events| :: b.events[i].id < b.events[j].id)
    && (forall x | x in b.events :: exists e | e in q.db.events :: Wanted(q.filter, b.id, e) && ShowsEvent(q.w, x, e))
    && (forall e | e in q.db.events && Wanted(q.filter, b.id, e) :: exists x | x in b.events :: ShowsEvent(q.w, x, e))
  }

  /** One carried batch against the store. */
  ghost predicate Faithful(q: Request, b: Batch) {
    b.id in q.db.batches && FaithfulRow(q, b) && ShowsEntry(q.w, q.db, b) && FaithfulEvents(q, b)
  }

  /** Shown events, one by one against the stored ones. */
  ghost predicate ShowsAll(w: World, events: seq<ShownEvent>, shown: seq<Event>) {
    |events| == |shown| && forall i | 0 <= i < |shown| :: ShowsEvent(w, events[i], shown[i])
  }

  lemma ShownAgree(w: World, events: seq<ShownEvent>, shown: seq<Event>)
    requires ShowsAll(w, events, shown) && OrderedById(shown)
    ensures forall i, j | 0 <= i < j < |events| :: events[i].id < events[j].id
    ensures forall x | x in events :: exists e | e in shown :: ShowsEvent(w, x, e)
    ensures forall e | e in shown :: exists x | x in events :: ShowsEvent(w, x, e)
  {
    hide ShowsEvent;
    forall i | 0 <= i < |shown| ensures events[i].id == shown[i].id { ShownIds(w, events[i], shown[i]); }
    forall x | x in events ensures exists e | e in shown :: ShowsEvent(w, x, e) {
      var i :| 0 <= i < |events| && events[i] == x;
      assert shown[i] in shown;
    }
    forall e | e in shown ensures exists x | x in events :: ShowsEvent(w, x, e) {
      var i :| 0 <= i < |shown| && shown[i] == e;
      assert events[i] in events;
    }
  }

  lemma ExportedFaithful(q: Request, id: int)
    requires Inv(q.w.env, q.db) && id in q.db.batches && Readable(q.w, ShownOf(q.db, q.filter, id))
    ensures Faithful(q, Exported(q.w, q.db, q.filter, id))
  {
    hide ShownOf, Exported, ShowsEvent, ShowsEntry, Readable, Wanted, Chained, Anchored, Bound, TriggersOf,
        OrderedById, ShowsAll;
    var b, shown := Exported(q.w, q.db, q.filter, id), ShownOf(q.db, q.filter, id);
    ExportedRow(q.w, q.db, q.filter, id);
    ExportedLedger(q.w, q.db, q.filter, id);
    ShownExact(q.db, q.filter, id);
    OrderedSize(shown);
    assert (set e | e in shown) == (set e | e in q.db.events && Wanted(q.filter, id, e));
    assert FaithfulEvents(q, b) by { EventsFaithful(q, id, b); }
  }

  lemma EventsFaithful(q: Request, id: int, b: Batch)
    requires Inv(q.w.env, q.db) && id in q.db.batches && Readable(q.w, ShownOf(q.db, q.filter, id))
    requires b == Exported(q.w, q.db, q.filter, id) && b.id == id
    ensures FaithfulEvents(q, b)
  {
    hide ShownOf, Exported, ShowsEvent, Readable, Wanted, Chained, Anchored, Bound, OrderedById, ShowsAll;
    var shown := ShownOf(q.db, q.filter, id);
    ShownExact(q.db, q.filter, id);
    ExportedEvents(q.w, q.db, q.filter, id);
    ShownAgree(q.w, b.events, shown);
  }

  lemma ShownIds(w: World, x: ShownEvent, e: Event)
    requires ShowsEvent(w, x, e)
    ensures x.id == e.id
  {
  }

  // ---------------------------------------------------------------- an issued pack

  /** Every batch an issued pack carries is faithful to the store, and so are the version,
      the head and the time it is signed with. */
  lemma IssuedShows(q: Request, cursor: int, now: int, pack: Evidence)
    requires Inv(q.w.env, q.db) && q.EndsAs(cursor, now, Issued(pack))
    ensures forall b | b in pack.content.batches :: Faithful(q, b)
    ensures pack.content.version == 5 && pack.generatedAt == now
    ensures pack.content.head == if q.db.ledger == [] then q.db.head else q.db.ledger[|q.db.ledger| - 1].entryHash
  {
    hide History.PageBelow, Exported, FetchedLinks, Uniform, AllReadable, Build, WithinCaps, ExportEndsAs, Readable,
        ShownOf, Inv, Faithful;
    var n := IssuedPrefix(q, cursor, now, pack);
    var page := q.Page(cursor);
    var r := ReadingOf(q.w, q.db, q.filter, page);
    BuiltContent(q.w, r, now, n);
    forall b | b in pack.content.batches ensures Faithful(q, b) {
      var i :| 0 <= i < n && r.batches[i] == b;
      assert page.batches[i] in page.batches;
      PageReadable(q.w, q.db, q.filter, page.batches, page.batches[i]);
      ExportedFaithful(q, page.batches[i]);
    }
  }

  /** A wanted event of the page has a field list that does not decode. */
  ghost predicate Undecodable(q: Request, ids: seq<int>) {
    exists id, e | id in ids && e in q.db.events :: (
      && Wanted(q.filter, id, e) && e.row.body.changes != "" && q.w.decodeFields(e.row.body.changes).None?)
  }

  /** An export fails for unreadable rows if and only if a wanted event of its page has a
      field list that is not empty and does not decode. */
  lemma UnreadableIff(q: Request, cursor: int, now: int)
    requires !(q.Page(cursor).batches == [] && q.Page(cursor).truncated)
    ensures q.EndsAs(cursor, now, Unreadable) <==> Undecodable(q, q.Page(cursor).batches)
  {
    hide History.PageBelow, Build, WithinCaps, FetchedLinks, ShownOf, Pack.Exported, Wanted;
    var ids := q.Page(cursor).batches;
    PageStored(q, cursor);
    forall id ensures forall e :: e in ShownOf(q.db, q.filter, id) <==> e in q.db.events && Wanted(q.filter, id, e) {
      ShownMembers(q.db, q.filter, id);
    }
    forall changes ensures ShownFields(q.w, changes).None? <==> changes != "" && q.w.decodeFields(changes).None? {
      FieldsIff(q.w, changes);
    }
  }

  lemma PageStored(q: Request, cursor: int)
    ensures forall id | id in q.Page(cursor).batches :: id in q.db.batches
  {
    hide History.PageBelow;
    var low := HistoryPaging.OlderPageIsTopRun(q.Catalog(), cursor, ExportLimit(q.limit), MAX_BYTES);
  }

  lemma FieldsIff(w: World, changes: string)
    ensures ShownFields(w, changes).None? <==> changes != "" && w.decodeFields(changes).None?
  {
  }

  lemma PageReadable(w: World, db: Db, filter: Filter, ids: seq<int>, id: int)
    requires AllReadable(w, db, filter, ids) && id in ids
    ensures id in db.batches && Readable(w, ShownOf(db, filter, id))
  {
    hide Readable, ShownOf;
  }

  lemma BuiltContent(w: World, r: Reading, now: int, n: nat)
    requires n <= |r.batches| && Build(w, r, now, n).Some?
    ensures var pack := Build(w, r, now, n).value;
      && pack.content.batches == r.batches[..n] && pack.content.version == 5 && pack.generatedAt == now
      && pack.content.head == r.head
  {
    hide LinksFor;
  }

  /** The batches an export still has to carry, said on the rows: they pass the batch terms
      of the filter, lie below the cursor, and hold an event that the filter wants. */
  lemma DueIff(q: Request, cursor: int, id: int)
    ensures q.Due(cursor, id) <==>
      && id in q.db.batches && q.filter.batch(id, q.db.batches[id]) && (cursor > 0 ==> id < cursor)
      && exists e | e in q.db.events :: Wanted(q.filter, id, e)
  {
    hide EventsOf, Selected, Wanted;
    ShownMembers(q.db, q.filter, id);
    var shown := ShownOf(q.db, q.filter, id);
    if shown != [] { assert shown[0] in shown; }
  }

  lemma ShownMembers(db: Db, filter: Filter, id: int)
    ensures forall e :: e in ShownOf(db, filter, id) <==> e in db.events && Wanted(filter, id, e)
  {
    hide EventsOf, Selected;
    OfBatch(db.events, id);
    SelectedExact(filter, EventsOf(db.events, id));
  }
}
