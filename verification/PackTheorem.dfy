/** The acceptance theorem: an exported part is accepted exactly when its batches explain
    themselves.
 */
module PackTheorem {
  import opened Crypto
  import opened LedgerSpec
  import opened LedgerInvariant
  import opened Pack
  import opened PackVerify
  import opened PackExport
  import opened PackComplete
  import History
  import HistoryPaging
  import Sets

  /** What an export has read from a sound store: batches with something to show, newest
      first, their fetched chain segment, and a page cursor. */
  ghost predicate GoodReading(w: World, db: Db, filter: Filter, ids: seq<int>, r: Reading) {
    && SoundWorld(w) && Inv(w.env, db)
    && HistoryPaging.Descending(ids)
    && AllReadable(w, db, filter, ids) && (forall id | id in ids :: ShownOf(db, filter, id) != [])
    && r.batches == BatchesOf(w, db, filter, ids)
    && r.links == FetchedLinks(db.ledger, r.batches)
    && Uniform(r.batches)
    && (!r.hasNext ==> r.nextCursor == 0)
  }

  /** Batch i of the reading is the export of id i, and, when ledgered, matches row
      `sequence` of the ledger. */
  lemma BatchAt(w: World, db: Db, filter: Filter, ids: seq<int>, r: Reading, i: nat)
    requires GoodReading(w, db, filter, ids, r) && i < |ids|
    ensures |r.batches| == |ids|
    ensures ids[i] in db.batches && Readable(w, ShownOf(db, filter, ids[i]))
        && r.batches[i] == Exported(w, db, filter, ids[i])
    ensures var b := r.batches[i];
      && b.id == ids[i] && b.sequence >= 0 && (b.sequence > 0 <==> Ledgered(db.ledger, ids[i]))
      && (b.sequence == 0 ==> b.keyId == "")
      && (b.sequence > 0 ==>
            && b.sequence <= |db.ledger| && EntryOk(w.env, db.ledger, b.sequence - 1)
            && LinkMatches(db.ledger[b.sequence - 1], b))
  {
    hide Inv, Exported, Readable, FetchedLinks, Uniform, ShownOf, HistoryPaging.Descending;
    assert ids[i] in ids;
    ExportedEntry(w, db, filter, ids[i]);
  }

  ghost predicate SomeLedgered(batches: seq<Batch>) {
    exists b :: b in batches && b.sequence > 0
  }

  // ---------------------------------------------------------------- the chain segment

  lemma LedgerConsecutive(env: Instance, ledger: seq<Entry>)
    requires Chained(env, ledger)
    ensures Consecutive(ledger, 1)
  {
    forall i | 0 <= i < |ledger| ensures ledger[i].sequence == 1 + i { assert EntryOk(env, ledger, i); }
  }

  lemma ConsecutiveSlice(links: seq<Entry>, base: int, a: nat, b: nat)
    requires Consecutive(links, base) && a <= b <= |links|
    ensures Consecutive(links[a..b], base + a)
  {
  }

  lemma SequenceBoundsOf(batches: seq<Batch>, n: int)
    requires forall b | b in batches :: 0 <= b.sequence <= n
    requires SomeLedgered(batches)
    ensures 1 <= CheckpointSequence(LowSequence(batches)) <= LowSequence(batches) <= HighSequence(batches) <= n
  {
    var b :| b in batches && b.sequence > 0;
  }

  /** The newest entries of a range, as one slice of the ledger. */
  lemma NewestSlice(ledger: seq<Entry>, start: int, hi: int) returns (a: nat)
    requires Consecutive(ledger, 1) && 1 <= start <= hi <= |ledger|
    ensures a < hi && start - 1 <= a && (a == start - 1 || a == hi - MAX_LINKS)
    ensures (if |Between(ledger, start, hi)| > MAX_LINKS then
        Between(ledger, start, hi)[|Between(ledger, start, hi)| - MAX_LINKS..]
             else Between(ledger, start, hi)) == ledger[a..hi]
  {
    hide Between;
    BetweenSlice(ledger, 1, start, hi);
    var span := ledger[start - 1..hi];
    if |span| > MAX_LINKS {
      a := hi - MAX_LINKS;
      assert span[|span| - MAX_LINKS..] == ledger[a..hi];
    } else {
      a := start - 1;
    }
  }

  /** The fetched segment is one slice of the ledger that ends at the largest sequence. */
  lemma FetchedSlice(env: Instance, ledger: seq<Entry>, batches: seq<Batch>) returns (a: nat)
    requires Chained(env, ledger)
    requires forall b | b in batches :: 0 <= b.sequence <= |ledger|
    requires SomeLedgered(batches)
    ensures a < HighSequence(batches) <= |ledger|
    ensures FetchedLinks(ledger, batches) == ledger[a..HighSequence(batches)]
    ensures FirstLink(FetchedLinks(ledger, batches)) == a + 1
  {
    hide Between, Chained, LowSequence, HighSequence;
    LedgerConsecutive(env, ledger);
    SequenceBoundsOf(batches, |ledger|);
    a := NewestSlice(ledger, CheckpointSequence(LowSequence(batches)), HighSequence(batches));
  }

  /** The segment starts where its batches need it, or MAX_LINKS below its end. */
  lemma FetchedStart(env: Instance, ledger: seq<Entry>, batches: seq<Batch>)
    requires Chained(env, ledger)
    requires forall b | b in batches :: 0 <= b.sequence <= |ledger|
    requires SomeLedgered(batches)
    ensures var start := FirstLink(FetchedLinks(ledger, batches));
      start == CheckpointSequence(LowSequence(batches)) || start == HighSequence(batches) - MAX_LINKS + 1
  {
    hide Between, Chained, LowSequence, HighSequence;
    LedgerConsecutive(env, ledger);
    SequenceBoundsOf(batches, |ledger|);
    var hi := HighSequence(batches);
    var a := NewestSlice(ledger, CheckpointSequence(LowSequence(batches)), hi);
    var b := FetchedSlice(env, ledger, batches);
    assert ledger[a..hi] == ledger[b..hi];
    assert |ledger[a..hi]| == hi - a && |ledger[b..hi]| == hi - b;
  }

  /** Every batch within the caps has its checkpoint in the fetched segment. */
  lemma {:induction false} CapReaches(batches: seq<Batch>, firstLink: int, events: nat, i: nat)
    requires i < WithinCaps(batches, firstLink, events)
    ensures batches[i].sequence > 0 ==> CheckpointSequence(batches[i].sequence) >= firstLink
    decreases i
  {
    if i > 0 { CapReaches(batches[1..], firstLink, events + |batches[0].events|, i - 1); }
  }

  lemma SequencesInLedger(w: World, db: Db, filter: Filter, ids: seq<int>, r: Reading)
    requires GoodReading(w, db, filter, ids, r)
    ensures forall b | b in r.batches :: 0 <= b.sequence <= |db.ledger|
  {
    hide EntryOk, LinkMatches, Exported, Uniform, AllReadable, FetchedLinks;
    ReadingLength(w, db, filter, ids, r);
    forall b | b in r.batches ensures 0 <= b.sequence <= |db.ledger| {
      var i :| 0 <= i < |r.batches| && r.batches[i] == b;
      BatchAt(w, db, filter, ids, r, i);
    }
  }

  /** The links of a part: the ledger from one before its smallest sequence to its largest. */
  lemma PartLinks(env: Instance, ledger: seq<Entry>, batches: seq<Batch>, count: nat)
    requires Chained(env, ledger) && (forall b | b in batches :: 0 <= b.sequence <= |ledger|)
    requires count <= WithinCaps(batches, FirstLink(FetchedLinks(ledger, batches)), 0) && SomeLedgered(batches[..count])
    ensures var part := batches[..count];
      var first, hi := CheckpointSequence(LowSequence(part)), HighSequence(part);
      1 <= first <= hi <= |ledger| && LinksFor(part, FetchedLinks(ledger, batches)) == ledger[first - 1..hi]
  {
    hide Between, Chained, LowSequence, HighSequence, WithinCaps, FetchedLinks, Consecutive;
    var part := batches[..count];
    PartInBatches(batches, count);
    var a := FetchedSlice(env, ledger, batches);
    PartRange(batches, count, a + 1);
    LedgerConsecutive(env, ledger);
    var hiAll := HighSequence(batches);
    ConsecutiveSlice(ledger, 1, a, hiAll);
    var first, hi := CheckpointSequence(LowSequence(part)), HighSequence(part);
    BetweenSlice(ledger[a..hiAll], a + 1, first, hi);
    SliceOfSlice(ledger, a, hiAll, first - 1, hi);
  }

  lemma SliceOfSlice(s: seq<Entry>, a: nat, b: nat, c: nat, d: nat)
    requires a <= c <= d <= b <= |s|
    ensures s[a..b][c - a..d - a] == s[c..d]
  {
    var left, right := s[a..b][c - a..d - a], s[c..d];
    assert |left| == |right|;
    forall i | 0 <= i < d - c ensures left[i] == right[i] {
      assert left[i] == s[a..b][c - a + i] == s[c + i];
    }
  }

  lemma PartInBatches(batches: seq<Batch>, count: nat)
    requires count <= |batches| && SomeLedgered(batches[..count])
    ensures SomeLedgered(batches)
  {
    var b :| b in batches[..count] && b.sequence > 0;
    assert b in batches;
  }

  lemma PartRange(batches: seq<Batch>, count: nat, firstLink: int)
    requires count <= WithinCaps(batches, firstLink, 0) && SomeLedgered(batches[..count]) && firstLink > 0
    requires forall b | b in batches :: b.sequence >= 0
    ensures var part := batches[..count];
      && firstLink <= CheckpointSequence(LowSequence(part)) <= LowSequence(part)
      && LowSequence(part) <= HighSequence(part) <= HighSequence(batches)
      && LowSequence(part) > 0
  {
    hide WithinCaps;
    var part := batches[..count];
    assert forall b | b in part :: b in batches;
    var b :| b in part && b.sequence == LowSequence(part);
    var i :| 0 <= i < |part| && part[i] == b;
    CapReaches(batches, firstLink, 0, i);
  }

  lemma SliceLinksOk(env: Instance, ledger: seq<Entry>, first: int, hi: int)
    requires Sound(env) && Chained(env, ledger) && 1 <= first <= hi <= |ledger|
    ensures LinksOk(env.key, env.key.id, ledger[first - 1..hi])
  {
    var links := ledger[first - 1..hi];
    forall i | 0 <= i < |links| ensures LinkOk(env.key, env.key.id, links, i) {
      assert EntryOk(env, ledger, first - 1 + i);
      if first - 1 + i > 0 { assert EntryOk(env, ledger, first - 2 + i); }
    }
  }

  // ---------------------------------------------------------------- batches of a part

  lemma PartWellFormed(w: World, db: Db, filter: Filter, ids: seq<int>, r: Reading, count: nat)
    requires GoodReading(w, db, filter, ids, r) && count <= |r.batches|
    ensures forall b | b in r.batches[..count] :: WellFormedBatch(b, w.env.key.id)
  {
    hide Exported, Inv, Readable, FetchedLinks, Uniform;
    var part := r.batches[..count];
    ReadingLength(w, db, filter, ids, r);
    forall i | 0 <= i < |part| ensures WellFormedBatch(part[i], w.env.key.id) {
      BatchAt(w, db, filter, ids, r, i);
      if part[i].sequence > 1 { PreviousHash(w.env, db, part[i].sequence - 1); }
    }
  }

  lemma PartDistinct(w: World, db: Db, filter: Filter, ids: seq<int>, r: Reading, count: nat)
    requires GoodReading(w, db, filter, ids, r) && count <= |r.batches|
    ensures DistinctSequences(r.batches[..count])
  {
    hide Exported, Inv, Readable, FetchedLinks, Uniform, EntryOk;
    var part := r.batches[..count];
    ReadingLength(w, db, filter, ids, r);
    forall i, j | 0 <= i < j < |part| && part[i].sequence > 0 ensures part[i].sequence != part[j].sequence {
      BatchAt(w, db, filter, ids, r, i);
      BatchAt(w, db, filter, ids, r, j);
    }
  }

  lemma PartNeighbours(w: World, db: Db, filter: Filter, ids: seq<int>, r: Reading, count: nat)
    requires GoodReading(w, db, filter, ids, r) && count <= |r.batches|
    ensures NeighboursChain(r.batches[..count])
  {
    hide Exported, Inv, Readable, FetchedLinks, Uniform;
    var part := r.batches[..count];
    ReadingLength(w, db, filter, ids, r);
    forall i | 0 <= i < |part| - 1 && part[i + 1].sequence > 0 && part[i].sequence == part[i + 1].sequence + 1
      ensures part[i].prevHash == part[i + 1].hash
    {
      BatchAt(w, db, filter, ids, r, i);
      BatchAt(w, db, filter, ids, r, i + 1);
    }
  }

  lemma PreviousHash(env: Instance, db: Db, i: int)
    requires Inv(env, db) && 0 < i < |db.ledger|
    ensures IsHash(PrevHash(db.ledger, i))
  {
    assert EntryOk(env, db.ledger, i - 1);
  }

  lemma PartUniform(batches: seq<Batch>, count: nat)
    requires count <= |batches| && Uniform(batches)
    ensures Uniform(batches[..count])
  {
    assert forall b | b in batches[..count] :: b in batches;
  }

  /** The ledgered batches of a part verify exactly when their shown events are explained. */
  ghost predicate LedgeredExplained(w: World, db: Db, filter: Filter, ids: seq<int>)
  {
    forall id | id in ids && Ledgered(db.ledger, id) :: forall e | e in ShownOf(db, filter, id) :: EventExplained(w, e)
  }

  lemma PartBatchesExact(w: World, db: Db, filter: Filter, ids: seq<int>, r: Reading, count: nat)
    requires GoodReading(w, db, filter, ids, r) && count <= |r.batches|
    ensures (forall b | b in r.batches[..count] && b.sequence > 0 :: BatchOk(w, b))
        <==> LedgeredExplained(w, db, filter, ids[..count])
  {
    hide BatchOk, EventExplained, Exported, ShownOf, FetchedLinks, Uniform, Inv, Ledgered;
    var part := r.batches[..count];
    assert |r.batches| == |ids|;
    forall i | 0 <= i < count
      ensures part[i].sequence > 0 <==> Ledgered(db.ledger, ids[i])
      ensures part[i].sequence > 0 ==> (BatchOk(w, part[i])
          <==> forall e | e in ShownOf(db, filter, ids[i]) :: EventExplained(w, e))
    {
      BatchAt(w, db, filter, ids, r, i);
      if part[i].sequence > 0 {
        assert ids[i] in ids;
        BatchOkExact(w, db, filter, ids[i]);
      }
    }
    if forall b | b in part && b.sequence > 0 :: BatchOk(w, b) {
      forall id | id in ids[..count] && Ledgered(db.ledger, id)
        ensures forall e | e in ShownOf(db, filter, id) :: EventExplained(w, e)
      {
        var i :| 0 <= i < count && ids[i] == id;
        assert part[i] in part;
      }
    }
    if LedgeredExplained(w, db, filter, ids[..count]) {
      forall b | b in part && b.sequence > 0 ensures BatchOk(w, b) {
        var i :| 0 <= i < count && part[i] == b;
        assert ids[..count][i] in ids[..count];
      }
    }
  }

  lemma ReadingLength(w: World, db: Db, filter: Filter, ids: seq<int>, r: Reading)
    requires GoodReading(w, db, filter, ids, r)
    ensures |r.batches| == |ids|
  {
    hide Exported, Inv, Readable, FetchedLinks, Uniform;
  }

  ghost predicate Linked(links: seq<Entry>, b: Batch) {
    exists l | l in links :: LinkMatches(l, b)
  }

  lemma LinkInSlice(ledger: seq<Entry>, b: Batch, first: int, hi: int)
    requires 1 <= first <= b.sequence <= hi <= |ledger| && LinkMatches(ledger[b.sequence - 1], b)
    ensures Linked(ledger[first - 1..hi], b)
  {
    hide LinkMatches;
    assert ledger[first - 1..hi][b.sequence - first] == ledger[b.sequence - 1];
  }

  ghost predicate InLedger(ledger: seq<Entry>, b: Batch) {
    1 <= b.sequence <= |ledger| && LinkMatches(ledger[b.sequence - 1], b)
  }

  lemma BatchesInLedger(w: World, db: Db, filter: Filter, ids: seq<int>, r: Reading)
    requires GoodReading(w, db, filter, ids, r)
    ensures forall b | b in r.batches && b.sequence > 0 :: InLedger(db.ledger, b)
  {
    hide Exported, Inv, Readable, FetchedLinks, Uniform, EntryOk, LinkMatches, AllReadable;
    ReadingLength(w, db, filter, ids, r);
    forall b | b in r.batches && b.sequence > 0 ensures InLedger(db.ledger, b) {
      var i :| 0 <= i < |r.batches| && r.batches[i] == b;
      BatchAt(w, db, filter, ids, r, i);
    }
  }

  /** Every ledgered batch of a part has its link in the slice. */
  lemma PartMatches(ledger: seq<Entry>, part: seq<Batch>, first: int, hi: int)
    requires first == CheckpointSequence(LowSequence(part)) && hi == HighSequence(part)
    requires 1 <= first <= hi <= |ledger|
    requires forall b | b in part :: b.sequence >= 0 && (b.sequence > 0 ==> InLedger(ledger, b))
    ensures forall b | b in part && b.sequence > 0 :: Linked(ledger[first - 1..hi], b)
  {
    hide LinkMatches, HighSequence, LowSequence, Linked;
    forall b | b in part && b.sequence > 0 ensures Linked(ledger[first - 1..hi], b) {
      SequenceInRange(part, b);
      LinkInSlice(ledger, b, first, hi);
    }
  }

  lemma SequenceInRange(batches: seq<Batch>, b: Batch)
    requires b in batches && b.sequence > 0 && forall x | x in batches :: x.sequence >= 0
    ensures CheckpointSequence(LowSequence(batches)) <= b.sequence <= HighSequence(batches)
  {
  }

  // ---------------------------------------------------------------- the theorem

  /** The ledger half: the links and batches of a part verify exactly when its ledgered
      batches are explained. */
  lemma PartLedgerExact(w: World, db: Db, filter: Filter, ids: seq<int>, r: Reading, count: nat, pack: Evidence)
    requires GoodReading(w, db, filter, ids, r) && count <= CapOf(r)
    requires pack.content.batches == r.batches[..count] && pack.content.links == LinksFor(r.batches[..count], r.links)
    requires pack.publicKey == w.publicBytes && pack.keyId == w.env.key.id
    ensures LedgerOk(w, pack) <==> LedgeredExplained(w, db, filter, ids[..count])
  {
    hide BatchOk, LinkMatches, LinkOk, WellFormedBatch, NeighboursChain, DistinctSequences, LinksFor, FetchedLinks,
        WithinCaps, LedgeredExplained,
         HighSequence, LowSequence, Uniform, SortedLinks, Inv, AllReadable, Readable, ShownOf;
    var part := r.batches[..count];
    ReadingLength(w, db, filter, ids, r);
    PartWellFormed(w, db, filter, ids, r, count);
    PartDistinct(w, db, filter, ids, r, count);
    PartNeighbours(w, db, filter, ids, r, count);
    PartUniform(r.batches, count);
    PartBatchesExact(w, db, filter, ids, r, count);
    SequencesInLedger(w, db, filter, ids, r);
    if SomeLedgered(part) {
      PartChainExact(w, db, filter, ids, r, count, pack);
    } else {
      assert forall b | b in part :: b in r.batches;
      NoLinks(part, r.links);
      AlreadySorted([], 0);
    }
  }

  lemma NoLinks(batches: seq<Batch>, links: seq<Entry>)
    requires (forall b | b in batches :: b.sequence >= 0) && !SomeLedgered(batches)
    ensures LinksFor(batches, links) == []
  {
  }

  lemma ChainWhen(w: World, pack: Evidence, links: seq<Entry>)
    requires SomeLedgered(pack.content.batches) && (forall b | b in pack.content.batches :: b.sequence >= 0)
    requires links == SortedLinks(pack.content.links) && links != []
    requires links[0].sequence == CheckpointSequence(LowSequence(pack.content.batches))
        && links[|links| - 1].sequence == HighSequence(pack.content.batches)
    requires LinksOk(w.keyOf(pack.publicKey), pack.keyId, links)
    requires forall b | b in pack.content.batches && b.sequence > 0 :: Linked(links, b)
    ensures ChainOk(w, pack) <==> forall b | b in pack.content.batches && b.sequence > 0 :: BatchOk(w, b)
  {
    hide BatchOk, LinkMatches, LinkOk, HighSequence, LowSequence, SortedLinks;
    assert forall b | b in pack.content.batches && b.sequence > 0 :: Linked(links, b) && exists l | l in links ::
        LinkMatches(l, b);
  }

  /** The links of a part, as the verifier will see them. */
  lemma PartLinksOk(env: Instance, ledger: seq<Entry>, batches: seq<Batch>, count: nat) returns (links: seq<Entry>)
    requires Sound(env) && Chained(env, ledger)
    requires forall b | b in batches :: 0 <= b.sequence <= |ledger| && (b.sequence > 0 ==> InLedger(ledger, b))
    requires count <= WithinCaps(batches, FirstLink(FetchedLinks(ledger, batches)), 0) && SomeLedgered(batches[..count])
    ensures var part := batches[..count];
      && links == LinksFor(part, FetchedLinks(ledger, batches)) && links == SortedLinks(links) && links != []
      && links[0].sequence == CheckpointSequence(LowSequence(part)) && links[|links| - 1].sequence == HighSequence(part)
      && LinksOk(env.key, env.key.id, links)
      && (forall b | b in part && b.sequence > 0 :: Linked(links, b))
  {
    hide Sound, LinksFor, FetchedLinks, WithinCaps, HighSequence, LowSequence, SortedLinks, Chained, Consecutive,
        LinksOk, InLedger, Linked;
    var part := batches[..count];
    assert forall b | b in part :: b in batches;
    PartLinks(env, ledger, batches, count);
    var first, hi := CheckpointSequence(LowSequence(part)), HighSequence(part);
    links := ledger[first - 1..hi];
    LedgerConsecutive(env, ledger);
    ConsecutiveSlice(ledger, 1, first - 1, hi);
    SliceEnds(links, first);
    AlreadySorted(links, first);
    SliceLinksOk(env, ledger, first, hi);
    PartMatches(ledger, part, first, hi);
  }

  lemma PartChainExact(w: World, db: Db, filter: Filter, ids: seq<int>, r: Reading, count: nat, pack: Evidence)
    requires GoodReading(w, db, filter, ids, r) && count <= CapOf(r) && SomeLedgered(r.batches[..count])
    requires pack.content.batches == r.batches[..count] && pack.content.links == LinksFor(r.batches[..count], r.links)
    requires pack.publicKey == w.publicBytes && pack.keyId == w.env.key.id
    ensures ChainOk(w, pack) <==> forall b | b in r.batches[..count] && b.sequence > 0 :: BatchOk(w, b)
  {
    hide LinksFor, FetchedLinks, WithinCaps, HighSequence, LowSequence, Uniform, SortedLinks, AllReadable, ShownOf,
        Chained, Consecutive, LinksOk, InLedger, ChainOk, BatchOk, Linked;
    SequencesInLedger(w, db, filter, ids, r);
    BatchesInLedger(w, db, filter, ids, r);
    assert forall b | b in r.batches[..count] :: b in r.batches;
    var links := PartLinksOk(w.env, db.ledger, r.batches, count);
    ChainWhen(w, pack, links);
  }

  lemma SliceEnds(links: seq<Entry>, first: int)
    requires Consecutive(links, first) && links != []
    ensures links[0].sequence == first && links[|links| - 1].sequence == first + |links| - 1
  {
  }

  /** What every batch of a part must explain for the part to be accepted. */
  ghost predicate PartExplained(w: World, db: Db, filter: Filter, ids: seq<int>) {
    forall id | id in ids && id in db.batches :: BatchExplained(w, db, filter, id)
  }

  ghost predicate AttributionsExplained(w: World, db: Db, filter: Filter, ids: seq<int>) {
    forall id | id in ids && id in db.batches ::
        AttributionExplained(w, db.batches[id].attributionStatus, ShownOf(db, filter, id))
  }

  lemma AttributionExact(w: World, db: Db, filter: Filter, id: int, b: Batch)
    requires id in db.batches && Readable(w, ShownOf(db, filter, id)) && b == Exported(w, db, filter, id)
    ensures (w.attributed(b.attributionStatus) != Other && forall e | e in b.events && e.attribution.Some? ::
        w.attributed(b.attributionStatus) == Complete)
       <==> AttributionExplained(w, db.batches[id].attributionStatus, ShownOf(db, filter, id))
  {
    hide ShownOf, TriggersOf, EntryFor, ShownFields, Completed;
    var shown := ShownOf(db, filter, id);
    assert forall i | 0 <= i < |shown| ::
        b.events[i] == Shown(w, shown[i]) && b.events[i].attribution == shown[i].row.body.attribution;
    forall e | e in shown && e.row.body.attribution.Some? ensures exists x | x in b.events :: x.attribution.Some? {
      var i :| 0 <= i < |shown| && shown[i] == e;
      assert b.events[i] in b.events;
    }
  }

  lemma VersionExact(w: World, db: Db, filter: Filter, ids: seq<int>, r: Reading, count: nat, content: Content)
    requires GoodReading(w, db, filter, ids, r) && count <= |r.batches|
    requires content.batches == r.batches[..count] && content.version == VERSION
    ensures VersionFieldsOk(w, content) <==> AttributionsExplained(w, db, filter, ids[..count])
  {
    hide Exported, ShownOf, Inv, Readable, Uniform, FetchedLinks, AttributionExplained;
    ReadingLength(w, db, filter, ids, r);
    var part := r.batches[..count];
    forall i | 0 <= i < count
      ensures ids[i] in db.batches
      ensures (w.attributed(part[i].attributionStatus) != Other && forall e | e in part[i].events
          && e.attribution.Some? :: w.attributed(part[i].attributionStatus) == Complete)
         <==> AttributionExplained(w, db.batches[ids[i]].attributionStatus, ShownOf(db, filter, ids[i]))
    {
      BatchAt(w, db, filter, ids, r, i);
      AttributionExact(w, db, filter, ids[i], part[i]);
    }
    if VersionFieldsOk(w, content) {
      forall id | id in ids[..count] && id in db.batches
        ensures AttributionExplained(w, db.batches[id].attributionStatus, ShownOf(db, filter, id))
      {
        var i :| 0 <= i < count && ids[i] == id;
        assert part[i] in part;
      }
    }
    if AttributionsExplained(w, db, filter, ids[..count]) {
      forall b | b in part
        ensures w.attributed(b.attributionStatus) != Other && forall e | e in b.events && e.attribution.Some? ::
            w.attributed(b.attributionStatus) == Complete
      {
        var i :| 0 <= i < count && part[i] == b;
        assert ids[..count][i] in ids[..count];
      }
    }
  }

  /** The part that an export issues is accepted by the offline verifier, under the
      instance's own key, if and only if each of its batches explains itself: the
      attribution status is known and covers attributed events, and in a ledgered batch
      every shown event has a stored field list and consistent size metadata. */
  lemma IssuedPartAccepted(w: World, db: Db, filter: Filter, ids: seq<int>, r: Reading, generatedAt: int, count: nat)
    requires GoodReading(w, db, filter, ids, r) && count <= CapOf(r)
    requires Fits(w, r, generatedAt, count)
    ensures |r.batches| == |ids|
    ensures Accepts(w, Build(w, r, generatedAt, count).value, Some(w.publicBytes))
        <==> PartExplained(w, db, filter, ids[..count])
  {
    hide Exported, ShownOf, Inv, Readable, Uniform, FetchedLinks, LinksFor, WithinCaps, LedgerOk, VersionFieldsOk,
        AllReadable,
         EventExplained, AttributionExplained, Ledgered;
    var pack := Build(w, r, generatedAt, count).value;
    ReadingLength(w, db, filter, ids, r);
    PartLedgerExact(w, db, filter, ids, r, count, pack);
    VersionExact(w, db, filter, ids, r, count, pack.content);
    assert CursorOk(pack.content);
    assert SignatureOk(w, pack, Some(w.publicBytes));
    ReadableInBatches(w, db, filter, ids);
    assert PartExplained(w, db, filter, ids[..count]) <==>
      AttributionsExplained(w, db, filter, ids[..count]) && LedgeredExplained(w, db, filter, ids[..count]) by {
      assert forall id | id in ids[..count] :: id in ids;
    }
  }

  lemma ReadableInBatches(w: World, db: Db, filter: Filter, ids: seq<int>)
    requires AllReadable(w, db, filter, ids)
    ensures forall id | id in ids :: id in db.batches
  {
  }
}
