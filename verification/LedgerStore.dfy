/** The evidence store as the object its transactions update, each method proved
    against the functions of `LedgerSpec` and `Audit`.
 */
module LedgerStore {
  import opened Crypto
  import opened Sets
  import opened LedgerSpec
  import opened LedgerInvariant
  import opened Audit

  // ---------------------------------------------------------------- key order of links

  predicate LinkAtMost(a: (int, int), b: (int, int)) {
    a.0 < b.0 || (a.0 == b.0 && a.1 <= b.1)
  }

  lemma LinkOrder(a: (int, int), b: (int, int))
    ensures LinkAtMost(a, a) && (LinkAtMost(a, b) || LinkAtMost(b, a))
    ensures forall c | LinkAtMost(a, b) && LinkAtMost(b, c) :: LinkAtMost(a, c)
  {
  }

  lemma {:induction false} FirstLinkExists(s: set<(int, int)>)
    requires s != {}
    ensures exists m :: m in s && forall y | y in s :: LinkAtMost(m, y)
    decreases |s|
  {
    hide LinkAtMost;
    var x := Pick(s);
    var rest := s - {x};
    LinkOrder(x, x);
    if rest == {} {
      forall y | y in s ensures y == x { assert y == x || y in rest; }
    } else {
      FirstLinkExists(rest);
      var m :| m in rest && forall y | y in rest :: LinkAtMost(m, y);
      LinkOrder(x, m);
      var first := if LinkAtMost(x, m) then x else m;
      forall y | y in s ensures LinkAtMost(first, y) { assert y == x || y in rest; }
      assert first in s;
    }
  }

  function FirstOrphan(s: set<(int, int)>): (m: (int, int))
    requires s != {}
    ensures m in s && forall y | y in s :: LinkAtMost(m, y)
  {
    FirstLinkExists(s);
    var m :| m in s && forall y | y in s :: LinkAtMost(m, y);
    m
  }

  /** ORDER BY observed_at, rowid. */
  predicate EventAtMost(a: Event, b: Event) {
    a.observedAt < b.observedAt || (a.observedAt == b.observedAt && a.id <= b.id)
  }

  lemma EventOrder(a: Event, b: Event)
    ensures EventAtMost(a, a) && (EventAtMost(a, b) || EventAtMost(b, a))
    ensures forall c | EventAtMost(a, b) && EventAtMost(b, c) :: EventAtMost(a, c)
  {
  }

  lemma {:induction false} OldestEventExists(s: set<Event>)
    requires s != {}
    ensures exists m :: m in s && forall y | y in s :: EventAtMost(m, y)
    decreases |s|
  {
    hide EventAtMost;
    var x := Pick(s);
    var rest := s - {x};
    EventOrder(x, x);
    if rest == {} {
      forall y | y in s ensures y == x { assert y == x || y in rest; }
    } else {
      OldestEventExists(rest);
      var m :| m in rest && forall y | y in rest :: EventAtMost(m, y);
      EventOrder(x, m);
      var oldest := if EventAtMost(x, m) then x else m;
      forall y | y in s ensures EventAtMost(oldest, y) { assert y == x || y in rest; }
      assert oldest in s;
    }
  }

  function EventTotal(db: Db, ids: seq<int>): nat {
    if ids == [] then 0 else EventTotal(db, ids[..|ids| - 1]) + |EventsOf(db.events, ids[|ids| - 1])|
  }

  lemma WithoutCons(e: Event, rest: seq<Event>, gone: set<Event>)
    ensures Without([e] + rest, gone) == (if e in gone then [] else [e]) + Without(rest, gone)
  {
    assert ([e] + rest)[1..] == rest;
  }

  lemma {:induction false} WithoutTwice(events: seq<Event>, a: set<Event>, b: set<Event>)
    ensures Without(Without(events, a), b) == Without(events, a + b)
    decreases |events|
  {
    if events != [] {
      WithoutTwice(events[1..], a, b);
      var rest := Without(events[1..], a);
      WithoutCons(events[0], rest, b);
      assert [] + rest == rest && [] + Without(rest, b) == Without(rest, b);
    }
  }

  lemma {:induction false} WithoutRelevant(events: seq<Event>, a: set<Event>, b: set<Event>)
    requires forall i | 0 <= i < |events| :: events[i] in a <==> events[i] in b
    ensures Without(events, a) == Without(events, b)
    decreases |events|
  {
    if events != [] { WithoutRelevant(events[1..], a, b); }
  }

  /** Deleting batches one after the other is deleting them together. */
  lemma RemovedTwice(db: Db, ids: set<int>, id: int)
    ensures RemovedBatches(RemovedBatches(db, ids), {id}) == RemovedBatches(db, ids + {id})
  {
    var first := RemovedBatches(db, ids);
    var a, b := EventsOfAll(db.events, ids), EventsOfAll(first.events, {id});
    WithoutTwice(db.events, a, b);
    forall i | 0 <= i < |db.events|
      ensures db.events[i] in a + b <==> db.events[i] in EventsOfAll(db.events, ids + {id})
    {
      if db.events[i] !in a { WithoutHolds(db.events, a, i); }
      WithoutSubset(db.events, a);
    }
    WithoutRelevant(db.events, a + b, EventsOfAll(db.events, ids + {id}));
  }

  lemma {:induction false} WithoutHolds(events: seq<Event>, gone: set<Event>, i: nat)
    requires i < |events| && events[i] !in gone
    ensures events[i] in Without(events, gone)
    decreases |events|
  {
    if i > 0 { WithoutHolds(events[1..], gone, i - 1); }
  }

  lemma {:induction false} WithoutSubset(events: seq<Event>, gone: set<Event>)
    ensures forall e | e in Without(events, gone) :: e in events
    decreases |events|
  {
    if events != [] { WithoutSubset(events[1..], gone); }
  }

  lemma LinkedSnoc(batchId: int, triggers: seq<int>, t: int)
    ensures Linked(batchId, triggers + [t]) == Linked(batchId, triggers) + {(batchId, t)}
  {
    assert forall x :: x in triggers + [t] <==> x in triggers || x == t;
  }

  // ---------------------------------------------------------------- backfill progress

  function Chunks(cutoff: int, n: nat): (r: seq<Step>)
    ensures |r| == n && forall i | 0 <= i < n :: r[i] == BackfillChunk(cutoff)
  {
    seq(n, i => BackfillChunk(cutoff))
  }

  lemma {:induction false} RunSnoc(env: Instance, db: Db, steps: seq<Step>, last: Step)
    ensures Run(env, db, steps + [last]) == Apply(env, Run(env, db, steps), last)
    decreases |steps|
  {
    hide Apply;
    if steps != [] {
      assert (steps + [last])[1..] == steps[1..] + [last];
      RunSnoc(env, Apply(env, db, steps[0]), steps[1..], last);
    }
  }

  lemma LedgeredExtends(a: seq<Entry>, b: seq<Entry>, id: int)
    requires a <= b && Ledgered(a, id)
    ensures Ledgered(b, id)
  {
    var i :| 0 <= i < |a| && a[i].batchId == id;
    assert b[i].batchId == id;
  }

  lemma AppendLedgers(env: Instance, db: Db, id: int)
    requires AppendEntry(env, db, id).Some?
    ensures SameRows(db, AppendEntry(env, db, id).value) && db.ledger <= AppendEntry(env, db, id).value.ledger
    ensures Ledgered(AppendEntry(env, db, id).value.ledger, id)
  {
    hide LedgerDigest, Payload, HashTaken;
    if !Ledgered(db.ledger, id) {
      assert AppendEntry(env, db, id).value.ledger[|db.ledger|].batchId == id;
    }
  }

  lemma {:induction false} AppendAllLedgers(env: Instance, db: Db, ids: seq<int>)
    requires AppendAll(env, db, ids).Some?
    ensures SameRows(db, AppendAll(env, db, ids).value) && db.ledger <= AppendAll(env, db, ids).value.ledger
    ensures forall id | id in ids :: Ledgered(AppendAll(env, db, ids).value.ledger, id)
    decreases |ids|
  {
    hide AppendEntry, Ledgered;
    if ids != [] {
      var next := AppendEntry(env, db, ids[0]).value;
      AppendLedgers(env, db, ids[0]);
      AppendAllLedgers(env, next, ids[1..]);
      LedgeredExtends(next.ledger, AppendAll(env, db, ids).value.ledger, ids[0]);
    }
  }

  /** Moving the cursor to the end of a chunk drops exactly that chunk. */
  lemma EligibleShrinks(db: Db, next: Db, cutoff: int, ids: seq<int>)
    requires Eligible(db, cutoff) != {} && ids == FirstIds(Eligible(db, cutoff), BACKFILL_CHUNK)
    requires SameRows(db, next) && next.cursor == ids[|ids| - 1]
    ensures Eligible(next, cutoff) < Eligible(db, cutoff)
    ensures forall id | id in Eligible(db, cutoff) :: id in ids || id in Eligible(next, cutoff)
  {
    hide EventsOf, FirstIds;
    var last := ids[|ids| - 1];
    assert last in Eligible(db, cutoff) && last !in Eligible(next, cutoff);
  }

  lemma BackfillDone(env: Instance, db: Db, cutoff: int)
    requires Eligible(db, cutoff) == {}
    ensures Backfilled(env, db, cutoff) == db.(cursor := 0)
  {
  }

  /** A chunk that was imported has left the eligible set for the ledger. */
  lemma ChunkProgress(env: Instance, db: Db, cutoff: int)
    requires Eligible(db, cutoff) != {}
    requires AppendAll(env, db, FirstIds(Eligible(db, cutoff), BACKFILL_CHUNK)).Some?
    ensures var next := Backfilled(env, db, cutoff);
      && |Eligible(next, cutoff)| < |Eligible(db, cutoff)|
      && (forall id | id in Eligible(db, cutoff) :: Ledgered(next.ledger, id) || id in Eligible(next, cutoff))
      && (forall id | Ledgered(db.ledger, id) :: Ledgered(next.ledger, id))
  {
    hide Ledgered, Eligible, FirstIds;
    var ids := FirstIds(Eligible(db, cutoff), BACKFILL_CHUNK);
    AppendAllLedgers(env, db, ids);
    var next := Backfilled(env, db, cutoff);
    EligibleShrinks(db, next, cutoff, ids);
    Smaller(Eligible(next, cutoff), Eligible(db, cutoff));
    forall id | Ledgered(db.ledger, id)
      ensures Ledgered(next.ledger, id)
    {
      LedgeredExtends(db.ledger, next.ledger, id);
    }
  }

  // ---------------------------------------------------------------- the store

  class EvidenceStore {
    const env: Instance
    var batches: map<int, BatchRow>
    var events: seq<Event>
    var links: set<(int, int)>
    var ledger: seq<Entry>
    var head: string
    var nextBatch: int
    var nextEvent: int
    var cursor: int
    var lastCheckpoint: Option<Checkpoint>
    var sent: seq<Checkpoint>

    ghost function View(): Db
      reads this
    {
      Db(batches, events, links, ledger, head, nextBatch, nextEvent, cursor, lastCheckpoint, sent)
    }

    function Tables(): (db: Db)
      reads this
      ensures db == View()
    {
      Db(batches, events, links, ledger, head, nextBatch, nextEvent, cursor, lastCheckpoint, sent)
    }

    constructor (env: Instance)
      ensures Fresh(View()) && this.env == env
    {
      this.env := env;
      batches, events, links, ledger, head := map[], [], {}, [], "";
      nextBatch, nextEvent, cursor, lastCheckpoint, sent := 1, 1, 0, None, [];
    }

    method AppendEvidenceLedger(batchId: int) returns (ok: bool)
      modifies `ledger, `head
      ensures ok <==> AppendEntry(env, old(View()), batchId).Some?
      ensures View() == if ok then AppendEntry(env, old(View()), batchId).value else old(View())
    {
      if Ledgered(ledger, batchId) { return true; }
      if batchId !in batches { return false; }
      var entry := NextEntry(env, Tables(), batchId);
      if HashTaken(ledger, entry.entryHash) { return false; }
      ledger := ledger + [entry];
      head := entry.entryHash;
      return true;
    }

    /** One poll's changes: batch row, trigger links, events, ledger entry; all or nothing. */
    method RecordChangeBatch(generation: int, now: int, changes: seq<NewEvent>, triggers: seq<int>, status: string)
      returns (batchId: int)
      modifies this
      ensures View() == Recorded(env, old(View()), generation, now, changes, triggers, status)
      ensures batchId == if View() == old(View()) then 0 else old(nextBatch)
    {
      if changes == [] { return 0; }
      var id := nextBatch;
      var triggerId := if triggers != [] && triggers[0] > 0 then triggers[0] else 0;
      var savedBatches, savedEvents, savedLinks, savedNextEvent := batches, events, links, nextEvent;
      batches := batches[id := BatchRow(generation, now, |changes|, triggerId, status)];
      nextBatch := id + 1;
      var i := 0;
      while i < |triggers|
        modifies `links
        invariant 0 <= i <= |triggers|
        invariant links == savedLinks + Linked(id, triggers[..i])
      {
        links := links + {(id, triggers[i])};
        assert triggers[..i + 1] == triggers[..i] + [triggers[i]];
        LinkedSnoc(id, triggers[..i], triggers[i]);
        i := i + 1;
      }
      assert triggers[..i] == triggers;
      i := 0;
      while i < |changes|
        modifies `events, `nextEvent
        invariant 0 <= i <= |changes|
        invariant nextEvent == savedNextEvent + i
        invariant events == savedEvents + Stored(changes, savedNextEvent, id, generation, now)[..i]
      {
        events := events + [Event(nextEvent, id, generation, now, changes[i])];
        nextEvent := nextEvent + 1;
        i := i + 1;
      }
      assert View() == Inserted(old(View()), generation, now, changes, triggers, status);
      var ok := AppendEvidenceLedger(id);
      if !ok {
        batches, events, links, nextBatch, nextEvent := savedBatches, savedEvents, savedLinks, id, savedNextEvent;
        return 0;
      }
      return id;
    }

    /** One backfill transaction. `done` reports that nothing was left to import. */
    method BackfillChunk(cutoff: int) returns (done: bool, ok: bool)
      modifies `ledger, `head, `cursor
      ensures View() == Backfilled(env, old(View()), cutoff)
      ensures done <==> Eligible(old(View()), cutoff) == {}
      ensures ok <==> done || AppendAll(env, old(View()), FirstIds(Eligible(old(View()), cutoff), BACKFILL_CHUNK)).Some?
    {
      var ids := FirstIds(Eligible(Tables(), cutoff), BACKFILL_CHUNK);
      if ids == [] {
        cursor := 0;
        return true, true;
      }
      var savedLedger, savedHead := ledger, head;
      var i := 0;
      while i < |ids|
        modifies `ledger, `head
        invariant 0 <= i <= |ids|
        invariant AppendAll(env, old(View()), ids) == AppendAll(env, View(), ids[i..])
        invariant SameRows(View(), old(View())) && cursor == old(cursor)
      {
        var appended := AppendEvidenceLedger(ids[i]);
        if !appended {
          ledger, head := savedLedger, savedHead;
          return false, false;
        }
        i := i + 1;
      }
      cursor := ids[|ids| - 1];
      return false, true;
    }

    /** Backfill to the end: chunk after chunk from the durable cursor. Stopped after any
        chunk, the next run continues there. When it ends well, every batch that was
        eligible has its entry. */
    method BackfillEvidenceLedgerUpTo(cutoff: int) returns (ok: bool, ghost chunks: nat)
      modifies `ledger, `head, `cursor
      ensures View() == Run(env, old(View()), Chunks(cutoff, chunks))
      ensures ok ==> cursor == 0 && forall id | id in Eligible(old(View()), cutoff) :: Ledgered(ledger, id)
    {
      hide Backfilled, AppendAll;
      chunks := 0;
      while true
        invariant View() == Run(env, old(View()), Chunks(cutoff, chunks))
        invariant forall id | id in Eligible(old(View()), cutoff) ::
            Ledgered(ledger, id) || id in Eligible(View(), cutoff)
        decreases |Eligible(View(), cutoff)|
      {
        ghost var before := View();
        var done: bool;
        done, ok := BackfillChunk(cutoff);
        RunSnoc(env, old(View()), Chunks(cutoff, chunks), LedgerSpec.BackfillChunk(cutoff));
        assert Chunks(cutoff, chunks + 1) == Chunks(cutoff, chunks) + [LedgerSpec.BackfillChunk(cutoff)];
        chunks := chunks + 1;
        if done {
          BackfillDone(env, before, cutoff);
          break;
        }
        if !ok { break; }
        ChunkProgress(env, before, cutoff);
      }
    }

    /** The candidates of one retention transaction: oldest first, within its event
        budget; the oldest one is always taken, however large it is. */
    method SelectExpiredBatches(cutoff: int, limit: nat) returns (ids: seq<int>)
      ensures forall id | id in ids :: Expired(View(), cutoff, id)
      ensures forall id, other | id in ids && id in batches && Expired(View(), cutoff, other) && other !in ids ::
          Older(View(), id, other)
      ensures forall i, j | 0 <= i < j < |ids| ::
        && ids[i] in batches && ids[j] in batches && ids[i] != ids[j] && Older(View(), ids[i], ids[j])
      ensures |ids| <= limit && (|ids| <= 1 || EventTotal(View(), ids) <= limit)
      ensures |ids| == limit || (forall id | Expired(View(), cutoff, id) :: id in ids) ||
        exists id | Expired(View(), cutoff, id) && id !in ids ::
          && EventTotal(View(), ids) + |EventsOf(events, id)| > limit
          && forall other | Expired(View(), cutoff, other) && other !in ids :: Older(View(), id, other)
      ensures ids == [] ==> limit == 0 || forall id :: !Expired(View(), cutoff, id)
    {
      var db := Tables();
      var pool := set id | id in batches && batches[id].observedAt < cutoff;
      ghost var all := pool;
      assert forall id :: Expired(db, cutoff, id) <==> id in all;
      ids := [];
      var selected := 0;
      while pool != {} && |ids| < limit
        invariant pool <= all && (forall id | id in ids :: id in all)
        invariant forall id | id in all :: id in pool || id in ids
        invariant forall id, other | id in ids && other in pool :: Older(db, id, other)
        invariant selected == EventTotal(db, ids) && |ids| <= limit
        invariant |ids| <= 1 || selected <= limit
        invariant forall id | id in ids :: id !in pool
        invariant forall i, j | 0 <= i < j < |ids| ::
            ids[i] in batches && ids[j] in batches && ids[i] != ids[j] && Older(db, ids[i], ids[j])
        invariant ids == [] ==> pool == all
        decreases |pool|
      {
        var id := Oldest(db, pool);
        var count := |EventsOf(events, id)|;
        if ids != [] && selected + count > limit {
          assert Expired(db, cutoff, id) && id !in ids;
          break;
        }
        assert (ids + [id])[..|ids|] == ids;
        ids := ids + [id];
        selected := selected + count;
        pool := pool - {id};
      }
    }

    /** Expired batches leave together with their events, in one transaction. */
    method DeleteExpiredBatches(cutoff: int, limit: nat) returns (ids: seq<int>)
      modifies `batches, `events
      ensures View() == RemovedBatches(old(View()), Elements(ids))
      ensures forall id | id in ids :: Expired(old(View()), cutoff, id)
      ensures |ids| <= 1 || EventTotal(old(View()), ids) <= limit
      ensures forall id, other | id in ids && id in old(batches) && Expired(old(View()), cutoff, other)
          && other !in ids :: Older(old(View()), id, other)
      ensures |ids| == limit || (forall id | Expired(old(View()), cutoff, id) :: id in ids) ||
        exists id | Expired(old(View()), cutoff, id) && id !in ids ::
          EventTotal(old(View()), ids) + |EventsOf(old(events), id)| > limit
    {
      ghost var before := View();
      ids := SelectExpiredBatches(cutoff, limit);
      RemovedNone(before);
      var i := 0;
      while i < |ids|
        modifies `batches, `events
        invariant 0 <= i <= |ids|
        invariant View() == RemovedBatches(before, Elements(ids[..i]))
      {
        assert ids[..i + 1] == ids[..i] + [ids[i]];
        ElementsSnoc(ids[..i], ids[i]);
        RemovedTwice(before, Elements(ids[..i]), ids[i]);
        events := Without(events, EventsOfAll(events, {ids[i]}));
        batches := batches - {ids[i]};
        i := i + 1;
      }
      assert ids[..i] == ids;
    }

    /** The candidates of one transaction, oldest first. */
    method SelectOrphanEvents(cutoff: int, limit: nat) returns (gone: set<Event>)
      ensures gone <= OrphanEvents(View(), cutoff) && |gone| <= limit
      ensures |gone| == limit || gone == OrphanEvents(View(), cutoff)
      ensures forall e, other | e in gone && other in OrphanEvents(View(), cutoff) && other !in gone ::
          EventAtMost(e, other)
    {
      hide EventAtMost, OrphanEvents;
      var rest := OrphanEvents(Tables(), cutoff);
      gone := {};
      while rest != {} && |gone| < limit
        invariant rest <= OrphanEvents(View(), cutoff) && gone <= OrphanEvents(View(), cutoff)
        invariant rest !! gone && |gone| <= limit
        invariant rest + gone == OrphanEvents(View(), cutoff)
        invariant forall e, other | e in gone && other in rest :: EventAtMost(e, other)
        decreases |rest|
      {
        OldestEventExists(rest);
        var e :| e in rest && forall y | y in rest :: EventAtMost(e, y);
        gone := gone + {e};
        rest := rest - {e};
      }
    }

    /** Events without a batch row expire on their own, oldest first. */
    method DeleteOrphanEvents(cutoff: int, limit: nat) returns (gone: set<Event>)
      modifies `events
      ensures gone <= OrphanEvents(old(View()), cutoff) && |gone| <= limit
      ensures View() == old(View()).(events := Without(old(events), gone))
      ensures |gone| == limit || gone == OrphanEvents(old(View()), cutoff)
      ensures forall e, other | e in gone && other in OrphanEvents(old(View()), cutoff) && other !in gone ::
          EventAtMost(e, other)
    {
      gone := SelectOrphanEvents(cutoff, limit);
      events := Without(events, gone);
    }

    /** Trigger links outlive their batch only until this runs: the first orphans below the
        first retained batch, in key order. */
    method DeleteOrphanLinks(cutoff: int, limit: nat) returns (unlinked: set<(int, int)>)
      modifies `links
      ensures unlinked <= OrphanLinks(old(View()), cutoff) && |unlinked| <= limit
      ensures forall l, other | l in unlinked && other in OrphanLinks(old(View()), cutoff) && other !in unlinked ::
          LinkAtMost(l, other)
      ensures View() == old(View()).(links := old(links) - unlinked)
      ensures |unlinked| == limit || unlinked == OrphanLinks(old(View()), cutoff)
    {
      hide LinkAtMost, OrphanLinks;
      ghost var orphans := OrphanLinks(View(), cutoff);
      var rest := OrphanLinks(Tables(), cutoff);
      unlinked := {};
      while rest != {} && |unlinked| < limit
        invariant rest + unlinked == orphans && rest !! unlinked && |unlinked| <= limit
        invariant forall l, other | l in unlinked && other in rest :: LinkAtMost(l, other)
        decreases |rest|
      {
        var l := FirstOrphan(rest);
        unlinked := unlinked + {l};
        rest := rest - {l};
      }
      links := links - unlinked;
    }

    method EnqueueLedgerCheckpointIfDue(now: int, interval: int, destination: Destination)
      returns (outcome: CheckpointOutcome)
      modifies `lastCheckpoint, `sent
      ensures outcome == CheckpointDecision(old(View()), now, interval, destination)
      ensures View() == Checkpointed(old(View()), now, interval, destination)
    {
      if destination == Off { return NotDue; }
      if lastCheckpoint.Some? {
        var anchored := EntryAt(ledger, lastCheckpoint.value.sequence);
        if anchored.None? { return LostAnchor; }
        if anchored.value.entryHash != lastCheckpoint.value.head { return MovedAnchor; }
      }
      if ledger == [] { return NotDue; }
      var newest := ledger[|ledger| - 1];
      if lastCheckpoint.Some? {
        if newest.sequence <= lastCheckpoint.value.sequence { return NotDue; }
        var elapsed := now - lastCheckpoint.value.sentAt;
        if 0 <= elapsed < interval { return NotDue; }
      }
      if destination == Unavailable { return NoDestination; }
      var checkpoint := Checkpoint(newest.sequence, newest.entryHash, now);
      sent := sent + [checkpoint];
      lastCheckpoint := Some(checkpoint);
      return Enqueued;
    }

    /** One audit page, entry by entry. */
    method AuditEvidenceLedger(key: PublicKey, after: nat, limit: int, want: Expectation) returns (page: Page)
      ensures page == AuditPage(env, View(), key, after, limit, want)
    {
      hide CheckEntry, FinalFinding, Start, LedgerDigest, Payload, PageSize, Latest;
      var db := Tables();
      var start := Start(db, key, after);
      if start.finding.Some? {
        return Rejected(start.finding.value);
      }
      var rest := After(ledger, after);
      var entries := rest[..PageSize(|rest|, limit)];
      var t := start;
      var i := 0;
      while i < |entries|
        invariant 0 <= i <= |entries|
        invariant t.finding.None?
        invariant Walk(env, db, key, start, entries) == Walk(env, db, key, t, entries[i..])
      {
        var entry := entries[i];
        var failed := CheckEntry(env, db, key, entry, t.expected, t.previous);
        assert entries[i..][0] == entry && entries[i..][1..] == entries[i + 1..];
        if failed.Some? {
          WalkStays(env, db, key, WalkOne(env, db, key, t, entry), entries[i + 1..]);
          return Rejected(Finding(entry.sequence, failed.value));
        }
        t := Tally(t.entries + 1, t.verified + 1,
                   if entry.batchId in batches then t.unverifiable else t.unverifiable + 1,
                   t.expected + 1, entry.entryHash, None);
        i := i + 1;
      }
      var last := t.expected - 1;
      if last < Latest(ledger) {
        return Verified(t.entries, t.verified, t.unverifiable, last, false, last);
      }
      var final := FinalFinding(db, want);
      if final.Some? { return Rejected(final.value); }
      return Verified(t.entries, t.verified, t.unverifiable, last, true, 0);
    }

    /** The audit command: pages until the chain is complete, a finding, or no progress. */
    method AuditCommand(key: PublicKey, limit: int, want: Expectation) returns (report: Report)
      requires Sorted(ledger)
      ensures report == WholeAudit(env, View(), key, want)
    {
      hide AuditPage, WholeAudit, Sorted, Walk;
      PagedEqualsWhole(env, View(), key, limit, want);
      var at: nat := 0;
      var entries: nat, verified: nat, unverifiable: nat := 0, 0, 0;
      while true
        invariant AuditPages(env, View(), key, 0, limit, want) ==
          (match AuditPages(env, View(), key, at, limit, want)
           case Passed(e, v, u) => Passed(entries + e, verified + v, unverifiable + u)
           case other => other)
        decreases Latest(ledger) - at
      {
        var page := AuditEvidenceLedger(key, at, limit, want);
        match page {
          case Rejected(finding) =>
            return Failed(finding);
          case Verified(e, v, u, last, complete, next) =>
            entries, verified, unverifiable := entries + e, verified + v, unverifiable + u;
            if complete { return Passed(entries, verified, unverifiable); }
            if next <= at { return Stuck; }
            PageAdvances(env, View(), key, at, limit, want);
            at := next;
        }
      }
    }
  }

  lemma RemovedNone(db: Db)
    ensures RemovedBatches(db, Elements([])) == db
  {
    assert Elements([]) == {};
    KeepAll(db.events, EventsOfAll(db.events, {}));
  }

  lemma {:induction false} KeepAll(events: seq<Event>, gone: set<Event>)
    requires gone == {}
    ensures Without(events, gone) == events
    decreases |events|
  {
    if events != [] { KeepAll(events[1..], gone); }
  }
}
