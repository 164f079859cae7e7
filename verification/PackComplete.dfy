/** Export and verification are two programs; this is where they meet: which exported
    packs the verifier accepts.
 */
module PackComplete {
  import opened Crypto
  import opened LedgerSpec
  import opened LedgerInvariant
  import opened Pack
  import opened PackVerify
  import opened PackExport

  // ---------------------------------------------------------------- size metadata

  /** Stored size metadata the verifier will accept, by the shape of the value: none for
      an empty value; the marker's own for a truncated one; the value's own hash and
      length otherwise. What is missing is filled in when History reads it. */
  predicate MetaExplained(w: World, raw: string, stored: ValueMeta) {
    if raw == "" then stored == ValueMeta("", 0, false)
    else match w.marker(raw)
      case Some(m) =>
        (stored.hash == "" || stored.hash == m.hash)
            && (if stored.bytes == 0 then m.bytes != 0 else stored.bytes == m.bytes)
      case None =>
        !stored.truncated && (stored.hash == "" || stored.hash == w.env.sha(raw))
            && (stored.bytes == 0 || stored.bytes == |raw|)
  }

  /** Completing and then checking accepts exactly the explained metadata. */
  lemma MetaExact(w: World, raw: string, stored: ValueMeta)
    requires SoundWorld(w)
    ensures SnapshotAgrees(w, Completed(w, raw, stored), raw) <==> MetaExplained(w, raw, stored)
  {
    assert raw != "" ==> |raw| > 0;
    assert IsHash(w.env.sha(raw));
  }

  // ---------------------------------------------------------------- when a batch explains itself

  /** What the offline verifier needs of one exported event. */
  predicate EventExplained(w: World, e: Event) {
    && e.row.body.changes != ""
    && MetaExplained(w, e.row.body.before, e.row.before)
    && MetaExplained(w, e.row.body.after, e.row.after)
  }

  predicate AttributionExplained(w: World, status: string, events: seq<Event>) {
    && w.attributed(status) != Other
    && forall e | e in events && e.row.body.attribution.Some? :: w.attributed(status) == Complete
  }

  predicate BatchExplained(w: World, db: Db, filter: Filter, id: int)
    requires id in db.batches
  {
    && AttributionExplained(w, db.batches[id].attributionStatus, ShownOf(db, filter, id))
    && (Ledgered(db.ledger, id) ==> forall e | e in ShownOf(db, filter, id) :: EventExplained(w, e))
  }

  // ---------------------------------------------------------------- entries and links of a sound ledger

  lemma EntryForIndex(env: Instance, ledger: seq<Entry>, id: int)
    requires Chained(env, ledger)
    ensures EntryFor(ledger, id).Some? <==> Ledgered(ledger, id)
    ensures EntryFor(ledger, id).Some? ==>
      var e := EntryFor(ledger, id).value;
      1 <= e.sequence <= |ledger| && ledger[e.sequence - 1] == e && EntryOk(env, ledger, e.sequence - 1)
  {
    if EntryFor(ledger, id).Some? {
      var i :| 0 <= i < |ledger| && ledger[i] == EntryFor(ledger, id).value;
      assert EntryOk(env, ledger, i);
    } else {
      assert forall i | 0 <= i < |ledger| :: ledger[i] in ledger;
    }
  }

  ghost predicate Consecutive(links: seq<Entry>, base: int) {
    forall i | 0 <= i < |links| :: links[i].sequence == base + i
  }

  lemma ConsecutiveTail(links: seq<Entry>, base: int)
    requires Consecutive(links, base) && links != []
    ensures Consecutive(links[1..], base + 1)
  {
    assert forall i | 0 <= i < |links| - 1 :: links[1..][i] == links[i + 1];
  }

  /** A range of consecutive links is a slice. */
  lemma {:induction false} BetweenSlice(links: seq<Entry>, base: int, lo: int, hi: int)
    requires Consecutive(links, base) && base <= lo <= hi + 1 <= base + |links|
    ensures Between(links, lo, hi) == links[lo - base..hi + 1 - base]
    decreases |links|
  {
    if links != [] {
      ConsecutiveTail(links, base);
      assert links[0].sequence == base;
      if lo > base {
        BetweenSlice(links[1..], base + 1, lo, hi);
        assert links[1..][lo - base - 1..hi - base] == links[lo - base..hi + 1 - base];
      } else if hi < base {
        NoneAbove(links[1..], base + 1, lo, hi);
      } else {
        BetweenSlice(links[1..], base + 1, base + 1, hi);
        BetweenFrom(links[1..], base + 1, lo, hi);
        assert [links[0]] + links[1..][0..hi - base] == links[0..hi + 1 - base];
      }
    }
  }

  lemma {:induction false} NoneAbove(links: seq<Entry>, base: int, lo: int, hi: int)
    requires Consecutive(links, base) && hi < base
    ensures Between(links, lo, hi) == []
    decreases |links|
  {
    if links != [] {
      ConsecutiveTail(links, base);
      NoneAbove(links[1..], base + 1, lo, hi);
    }
  }

  lemma {:induction false} BetweenFrom(links: seq<Entry>, base: int, lo: int, hi: int)
    requires Consecutive(links, base) && lo <= base
    ensures Between(links, lo, hi) == Between(links, base, hi)
    decreases |links|
  {
    if links != [] {
      ConsecutiveTail(links, base);
      BetweenFrom(links[1..], base + 1, lo, hi);
      BetweenFrom(links[1..], base + 1, base, hi);
    }
  }

  lemma InsertFirst(link: Entry, links: seq<Entry>)
    requires links != [] ==> link.sequence <= links[0].sequence
    ensures Insert(link, links) == [link] + links
  {
  }

  lemma {:induction false} AlreadySorted(links: seq<Entry>, base: int)
    requires Consecutive(links, base)
    ensures SortedLinks(links) == links
    decreases |links|
  {
    hide Insert, Nondecreasing;
    if links != [] {
      var rest := links[1..];
      assert forall i | 0 <= i < |rest| :: rest[i] == links[i + 1];
      AlreadySorted(rest, base + 1);
      InsertFirst(links[0], rest);
      assert [links[0]] + rest == links;
    }
  }

  // ---------------------------------------------------------------- one exported batch

  lemma {:induction false} SelectedOrdered(filter: Filter, events: seq<Event>)
    requires OrderedById(events)
    ensures OrderedById(Selected(filter, events))
    decreases |events|
  {
    if events != [] {
      SelectedOrdered(filter, events[1..]);
      var rest := Selected(filter, events[1..]);
      forall i | 0 <= i < |rest| ensures events[0].id < rest[i].id {
        assert rest[i] in events[1..];
        var j :| 0 <= j < |events[1..]| && events[1..][j] == rest[i];
        assert events[j + 1] == rest[i];
      }
    }
  }

  /** A shown event against its own signed form. */
  lemma EventExact(w: World, e: Event)
    requires SoundWorld(w) && ShownFields(w, e.row.body.changes).Some?
    ensures EventBound(w, Shown(w, e), LedgerEvent(e.id, e.generation, e.observedAt, e.row.body), e.batchId)
        <==> EventExplained(w, e)
  {
    hide SnapshotAgrees, Completed, MetaExplained;
    MetaExact(w, e.row.body.before, e.row.before);
    MetaExact(w, e.row.body.after, e.row.after);
  }

  lemma ExportedEntry(w: World, db: Db, filter: Filter, id: int)
    requires Inv(w.env, db) && id in db.batches && Readable(w, ShownOf(db, filter, id))
    ensures var b := Exported(w, db, filter, id);
      && b.id == id && b.sequence >= 0 && (b.sequence > 0 <==> Ledgered(db.ledger, id))
      && (b.sequence > 0 ==>
            && b.sequence <= |db.ledger| && EntryOk(w.env, db.ledger, b.sequence - 1)
            && LinkMatches(db.ledger[b.sequence - 1], b)
            && b.payload == w.env.encode(Payload(db, id))
            && Bound(w.env, db, db.ledger[b.sequence - 1]))
      && (b.sequence == 0 ==> b.keyId == "")
  {
    hide Bound, Payload, ShownOf, Selected, TriggersOf, IdsBelow, Anchored, Shown, ShownFields;
    EntryForIndex(w.env, db.ledger, id);
    if Ledgered(db.ledger, id) {
      var i := EntryFor(db.ledger, id).value.sequence - 1;
      assert Bound(w.env, db, db.ledger[i]);
    }
  }

  /** The shown events against the payload of a complete batch. */
  lemma EventsExact(w: World, all: seq<Event>, shown: seq<Event>, id: int)
    requires SoundWorld(w) && OrderedById(all) && Readable(w, shown)
    requires forall e | e in shown :: e in all && e.batchId == id
    ensures (forall e | e in shown :: exists s | s in Signed(all) :: s.id == e.id && EventBound(w, Shown(w, e), s, id))
       <==> (forall e | e in shown :: EventExplained(w, e))
  {
    hide EventBound, EventExplained, Shown, ShownFields;
    forall e | e in shown
      ensures (exists s | s in Signed(all) :: s.id == e.id && EventBound(w, Shown(w, e), s, id))
          <==> EventExplained(w, e)
    {
      var i :| 0 <= i < |all| && all[i] == e;
      var own := LedgerEvent(e.id, e.generation, e.observedAt, e.row.body);
      assert Signed(all)[i] == own;
      forall s | s in Signed(all) && s.id == e.id ensures s == own {
        var j :| 0 <= j < |all| && Signed(all)[j] == s;
      }
      EventExact(w, e);
    }
  }

  /** An exported ledgered batch passes its part of the verification exactly when its
      shown events are explained. */
  lemma BatchOkExact(w: World, db: Db, filter: Filter, id: int)
    requires SoundWorld(w) && Inv(w.env, db) && id in db.batches
    requires Readable(w, ShownOf(db, filter, id)) && ShownOf(db, filter, id) != [] && Ledgered(db.ledger, id)
    ensures BatchOk(w, Exported(w, db, filter, id)) <==> forall e | e in ShownOf(db, filter, id) :: EventExplained(w, e)
  {
    hide EventBound, EventExplained, Shown, ShownFields, EventsOf, Selected, TriggersOf, Chained, Anchored,
        LedgerDigest, Inv;
    ExportedEntry(w, db, filter, id);
    var b := Exported(w, db, filter, id);
    var all, shown := EventsOf(db.events, id), ShownOf(db, filter, id);
    RowOrder(w.env, db, id);
    SelectedOrdered(filter, all);
    assert |all| > 0;
    forall i, j | 0 <= i < j < |shown| ensures b.events[i].id != b.events[j].id {
      ShownId(w, shown[i]);
      ShownId(w, shown[j]);
    }
    EventsExact(w, all, shown, id);
    ShownEventsExact(w, db, filter, id);
    assert w.env.decode(b.payload) == Some(Payload(db, id));
    DistinctFromOrder(all);
  }

  lemma RowOrder(env: Instance, db: Db, id: int)
    requires Inv(env, db)
    ensures OrderedById(EventsOf(db.events, id))
  {
    EventsOfOrdered(db.events, id);
  }

  lemma DistinctFromOrder(all: seq<Event>)
    requires OrderedById(all)
    ensures DistinctSigned(Signed(all))
  {
  }

  lemma ShownId(w: World, e: Event)
    requires ShownFields(w, e.row.body.changes).Some?
    ensures Shown(w, e).id == e.id
  {
  }

  /** Quantifying over the exported events is quantifying over the rows behind them. */
  lemma ShownEventsExact(w: World, db: Db, filter: Filter, id: int)
    requires id in db.batches && Readable(w, ShownOf(db, filter, id))
    ensures var signed := Payload(db, id).events;
      (forall x | x in Exported(w, db, filter, id).events :: exists s | s in signed ::
          s.id == x.id && EventBound(w, x, s, id))
      <==> (forall e | e in ShownOf(db, filter, id) :: exists s | s in signed ::
          s.id == e.id && EventBound(w, Shown(w, e), s, id))
  {
    hide EventBound, ShownFields, EventsOf, Selected, TriggersOf, ShownOf, Shown;
    var b, shown := Exported(w, db, filter, id), ShownOf(db, filter, id);
    forall i | 0 <= i < |shown|
      ensures b.events[i] == Shown(w, shown[i]) && Shown(w, shown[i]).id == shown[i].id
    {
      ShownId(w, shown[i]);
    }
    forall e | e in shown ensures Shown(w, e) in b.events && Shown(w, e).id == e.id {
      var i :| 0 <= i < |shown| && shown[i] == e;
      assert b.events[i] == Shown(w, e);
    }
    forall x | x in b.events ensures exists e | e in shown :: x == Shown(w, e) && x.id == e.id {
      var i :| 0 <= i < |b.events| && b.events[i] == x;
      assert shown[i] in shown;
    }
  }
}
