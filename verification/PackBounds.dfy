/** How large a part of an export is, and what ends it.
 */
module PackBounds {
  import opened Crypto
  import opened LedgerSpec
  import opened LedgerInvariant
  import opened Pack
  import opened PackVerify
  import opened PackExport
  import opened PackComplete
  import opened PackTheorem
  import opened PackChain
  import History
  import HistoryPaging

  /** The events that some batches show. */
  function ShownCount(batches: seq<Batch>): nat {
    if batches == [] then 0 else |batches[0].events| + ShownCount(batches[1..])
  }

  /** The sequence of the link that a ledgered batch needs before its own. */
  function Needs(b: Batch): int {
    if b.sequence > 1 then b.sequence - 1 else 1
  }

  lemma {:induction false} CapIs(batches: seq<Batch>, firstLink: int, events: nat)
    requires events <= 2000
    ensures var n := WithinCaps(batches, firstLink, events);
      && events + ShownCount(batches[..n]) <= 2000
      && (n < |batches| ==>
            || events + ShownCount(batches[..n + 1]) > 2000
            || (batches[n].sequence > 0 && Needs(batches[n]) < firstLink))
    decreases |batches|
  {
    if batches != [] {
      var n := WithinCaps(batches, firstLink, events);
      if n > 0 {
        CapIs(batches[1..], firstLink, events + |batches[0].events|);
        assert batches[..n][1..] == batches[1..][..n - 1];
        if n < |batches| { assert batches[..n + 1][1..] == batches[1..][..n]; }
      } else {
        assert batches[..1][1..] == [];
      }
    }
  }

  lemma {:induction false} CountPrefix(batches: seq<Batch>, n: nat)
    requires n <= |batches|
    ensures ShownCount(batches[..n]) <= ShownCount(batches)
    decreases |batches|
  {
    if n > 0 {
      assert batches[..n][1..] == batches[1..][..n - 1];
      CountPrefix(batches[1..], n - 1);
    }
  }

  /** The chain segment behind a part reaches back to the link its oldest batch needs, or
      has exactly its newest 10000 entries. */
  lemma SegmentStarts(w: World, db: Db, filter: Filter, ids: seq<int>, r: Reading, b: Batch)
    requires GoodReading(w, db, filter, ids, r) && b in r.batches && b.sequence > 0
    requires Needs(b) < FirstLink(r.links)
    ensures exists newest | newest in r.batches :: newest.sequence - Needs(b) >= 10000
  {
    hide Inv, FetchedLinks, LowSequence, HighSequence, BatchesOf;
    SequencesInLedger(w, db, filter, ids, r);
    LedgerChained(w.env, db);
    FetchedStart(w.env, db.ledger, r.batches);
    OldestNeeds(r.batches, b);
    var newest :| newest in r.batches && newest.sequence == HighSequence(r.batches);
  }

  lemma LedgerChained(env: Instance, db: Db)
    requires Inv(env, db)
    ensures Chained(env, db.ledger)
  {
  }

  lemma OldestNeeds(batches: seq<Batch>, b: Batch)
    requires (forall x | x in batches :: x.sequence >= 0) && b in batches && b.sequence > 0
    ensures CheckpointSequence(LowSequence(batches)) <= Needs(b)
    ensures exists newest | newest in batches :: newest.sequence == HighSequence(batches)
  {
  }

  // ---------------------------------------------------------------- one part

  /** The exports of all the batches of the page that a request reads. */
  function All(q: Request, cursor: int): seq<Batch>
    requires AllReadable(q.w, q.db, q.filter, q.Page(cursor).batches)
  {
    BatchesOf(q.w, q.db, q.filter, q.Page(cursor).batches)
  }

  /** One more batch is too much: it shows too many events, the link it needs is
      10000 entries or more behind the newest, or the part that carries it is too large. */
  ghost predicate TooMuch(w: World, all: seq<Batch>, n: nat)
    requires n < |all|
  {
    || ShownCount(all[..n + 1]) > 2000
    || (all[n].sequence > 0 && exists newest | newest in all :: newest.sequence - Needs(all[n]) >= 10000)
    || exists larger: Evidence :: w.size(larger) > 5 * 1024 * 1024 && larger.content.batches == all[..n + 1]
  }

  /** An issued part is a start of its page, of at most 100 batches, 2000 events and five
      megabytes, and it ends before the end of the page only where one more batch is too
      much. */
  lemma PartStopsAt(q: Request, cursor: int, now: int, pack: Evidence)
    requires SoundWorld(q.w) && Inv(q.w.env, q.db) && q.EndsAs(cursor, now, Issued(pack))
    ensures AllReadable(q.w, q.db, q.filter, q.Page(cursor).batches)
    ensures var (all, n) := (All(q, cursor), |pack.content.batches|);
      && |all| <= (if 1 <= q.limit <= 100 then q.limit else 100)
      && n <= |all| && pack.content.batches == all[..n]
      && ShownCount(all[..n]) <= 2000 && q.w.size(pack) <= 5 * 1024 * 1024
      && (n < |all| ==> TooMuch(q.w, all, n))
  {
    hide Build, WithinCaps, Uniform, History.PageBelow, Pack.Exported, FetchedLinks, SoundWorld, Inv, AllReadable,
        ShownCount, TooMuch, ExportEndsAs, History.Below, HistoryPaging.Descending, BatchesOf;
    var n := IssuedPrefix(q, cursor, now, pack);
    var page := q.Page(cursor);
    var r := ReadingOf(q.w, q.db, q.filter, page);
    PageLength(q, cursor);
    BuiltBatches(q.w, r, now, n);
    PrefixCount(r, n);
    if n < |r.batches| {
      if n < CapOf(r) {
        OneMoreIsLarger(q, cursor, now, pack, r, n);
      } else {
        CapIsTooMuch(q, cursor, r);
      }
    }
  }

  /** An export reads one page of history: older batches, as many as are asked for up to
      100, and 100 by default, within five megabytes. */
  lemma PageIs(q: Request, cursor: int)
    ensures q.Page(cursor) ==
      History.PageOf(q.Catalog(), cursor, 0, if 1 <= q.limit <= 100 then q.limit else 100, 5 * 1024 * 1024)
  {
    hide History.PageBelow;
  }

  lemma PageLength(q: Request, cursor: int)
    ensures |q.Page(cursor).batches| <= if 1 <= q.limit <= 100 then q.limit else 100
  {
    hide History.PageBelow, History.Below;
    var low := HistoryPaging.OlderPageIsTopRun(q.Catalog(), cursor, ExportLimit(q.limit), MAX_BYTES);
  }

  lemma PrefixCount(r: Reading, n: nat)
    requires n <= CapOf(r)
    ensures ShownCount(r.batches[..n]) <= 2000
  {
    hide WithinCaps, ShownCount;
    CapIs(r.batches, FirstLink(r.links), 0);
    CountPrefix(r.batches[..CapOf(r)], n);
    assert r.batches[..CapOf(r)][..n] == r.batches[..n];
  }

  lemma CapIsTooMuch(q: Request, cursor: int, r: Reading)
    requires SoundWorld(q.w) && Inv(q.w.env, q.db)
    requires AllReadable(q.w, q.db, q.filter, q.Page(cursor).batches)
    requires r == ReadingOf(q.w, q.db, q.filter, q.Page(cursor)) && Uniform(r.batches) && CapOf(r) < |r.batches|
    ensures TooMuch(q.w, r.batches, CapOf(r))
  {
    hide WithinCaps, Uniform, History.PageBelow, Pack.Exported, FetchedLinks, SoundWorld, Inv, AllReadable,
        ShownCount;
    var n := CapOf(r);
    CapIs(r.batches, FirstLink(r.links), 0);
    ExportReads(q, cursor);
    if ShownCount(r.batches[..n + 1]) <= 2000 {
      SegmentStarts(q.w, q.db, q.filter, q.Page(cursor).batches, r, r.batches[n]);
    }
  }

  lemma OneMoreIsLarger(q: Request, cursor: int, now: int, pack: Evidence, r: Reading, n: nat)
    requires SoundWorld(q.w) && Inv(q.w.env, q.db)
    requires AllReadable(q.w, q.db, q.filter, q.Page(cursor).batches) && q.EndsAs(cursor, now, Issued(pack))
    requires r == ReadingOf(q.w, q.db, q.filter, q.Page(cursor)) && Uniform(r.batches)
    requires n == |pack.content.batches| < CapOf(r) && Build(q.w, r, now, n) == Some(pack)
    ensures TooMuch(q.w, r.batches, n)
  {
    hide Build, WithinCaps, Uniform, History.PageBelow, Pack.Exported, FetchedLinks, SoundWorld, Inv, AllReadable,
        ShownCount;
    BuiltSize(q.w, r, now, CapOf(r));
    var k :| 0 < k < CapOf(r) && Fits(q.w, r, now, k) && !Fits(q.w, r, now, k + 1)
      && Issued(pack) == Issued(Build(q.w, r, now, k).value);
    BuiltSize(q.w, r, now, k);
    PositiveIds(q);
    PageBuilds(q, cursor, now, n + 1);
    BuiltBatches(q.w, r, now, n + 1);
    var larger := Build(q.w, r, now, n + 1).value;
    assert larger.content.batches == r.batches[..n + 1] && q.w.size(larger) > 5 * 1024 * 1024;
  }

  lemma BuiltSize(w: World, r: Reading, now: int, n: nat)
    requires n <= |r.batches|
    ensures Build(w, r, now, n).Some? ==> |Build(w, r, now, n).value.content.batches| == n
  {
  }

  lemma PositiveIds(q: Request)
    requires Inv(q.w.env, q.db)
    ensures History.Positive(q.Catalog())
  {
  }
}
