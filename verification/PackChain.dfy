/** Whole exports: one part after another from the continuation cursor.
 */
module PackChain {
  import opened Crypto
  import opened LedgerSpec
  import opened LedgerInvariant
  import opened Pack
  import opened PackVerify
  import opened PackExport
  import opened PackComplete
  import opened PackTheorem
  import History
  import HistoryPaging
  import Sets

  /** One export request, apart from its cursor and its time. */
  datatype Request = Request(w: World, db: Db, filter: Filter, cost: int -> nat, limit: int) {
    function Page(cursor: int): History.Page {
      ExportPage(db, filter, cost, cursor, limit)
    }

    function Catalog(): History.Catalog {
      CatalogOf(db, filter, cost)
    }

    ghost predicate EndsAs(cursor: int, now: int, outcome: Outcome) {
      ExportEndsAs(w, db, filter, cost, cursor, limit, now, outcome)
    }

    /** The batches a cursor leaves to be exported. */
    ghost predicate Due(cursor: int, id: int) {
      id in History.Below(Catalog(), cursor) && Catalog().shows(id)
    }
  }

  function IdsOf(batches: seq<Batch>): (r: seq<int>)
    ensures |r| == |batches| && forall i | 0 <= i < |r| :: r[i] == batches[i].id
  {
    seq(|batches|, i requires 0 <= i < |batches| => batches[i].id)
  }

  // ---------------------------------------------------------------- one part

  /** An issued pack carries a prefix of its page. */
  lemma IssuedPrefix(q: Request, cursor: int, now: int, pack: Evidence) returns (n: nat)
    requires q.EndsAs(cursor, now, Issued(pack))
    ensures var page := q.Page(cursor);
      && AllReadable(q.w, q.db, q.filter, page.batches)
      && var r := ReadingOf(q.w, q.db, q.filter, page);
      && n <= CapOf(r) && |r.batches| == |page.batches|
      && Uniform(r.batches) && Fits(q.w, r, now, n) && Build(q.w, r, now, n) == Some(pack)
      && (n == 0 ==> page.batches == [])
  {
    hide Build, WithinCaps, Uniform, History.PageBelow, Pack.Exported, FetchedLinks;
    var r := ReadingOf(q.w, q.db, q.filter, q.Page(cursor));
    var fit := CapOf(r);
    if Fits(q.w, r, now, fit) {
      n := fit;
    } else {
      n :| 0 < n < fit && Fits(q.w, r, now, n) && Issued(pack) == Issued(Build(q.w, r, now, n).value);
    }
  }

  lemma IdsOfPart(w: World, db: Db, filter: Filter, ids: seq<int>, n: nat)
    requires AllReadable(w, db, filter, ids) && n <= |ids|
    ensures IdsOf(BatchesOf(w, db, filter, ids)[..n]) == ids[..n]
  {
    hide Readable, ShownOf, EntryFor, TriggersOf, Payload, Shown;
    var batches := BatchesOf(w, db, filter, ids);
    forall i | 0 <= i < n ensures batches[..n][i].id == ids[i] {
      assert ids[i] in ids;
    }
  }

  lemma PartShape(q: Request, cursor: int, now: int, pack: Evidence) returns (n: nat)
    requires q.EndsAs(cursor, now, Issued(pack))
    ensures var page := q.Page(cursor);
      && n <= |page.batches| && (n == 0 ==> page.batches == [])
      && IdsOf(pack.content.batches) == page.batches[..n]
      && pack.content.truncated == (n < |page.batches| || page.hasNext)
      && (pack.content.truncated ==> n > 0 && pack.content.nextCursor == page.batches[n - 1])
  {
    hide WithinCaps, Uniform, History.PageBelow, Pack.Exported, FetchedLinks, LinksFor, AllReadable;
    n := IssuedPrefix(q, cursor, now, pack);
    var page := q.Page(cursor);
    IdsOfPart(q.w, q.db, q.filter, page.batches, n);
    var ids := IdsOf(pack.content.batches);
    assert pack.content.truncated ==> ids[|ids| - 1] == pack.content.nextCursor;
  }

  lemma DescendingPrefix(s: seq<int>, n: nat)
    requires HistoryPaging.Descending(s) && n <= |s|
    ensures HistoryPaging.Descending(s[..n])
    ensures n > 0 ==> forall id :: id in s[..n] <==> id in s && id >= s[n - 1]
  {
    forall id | n > 0 && id in s && id >= s[n - 1] ensures id in s[..n] {
      var i :| 0 <= i < |s| && s[i] == id;
      assert s[..n][i] == id;
    }
  }

  /** A non-empty prefix of a page, or a whole last page, is a run down to its last batch. */
  lemma PagePrefixIsTopRun(cat: History.Catalog, cursor: int, limit: nat, n: nat)
    requires limit > 0 && n <= |History.PageBelow(cat, cursor, limit, MAX_BYTES).batches|
    ensures var page := History.PageBelow(cat, cursor, limit, MAX_BYTES);
      var ids := page.batches[..n];
      && HistoryPaging.Descending(ids)
      && (n > 0 ==> page.batches[n - 1] in History.Below(cat, cursor) && cat.shows(page.batches[n - 1]))
      && (n > 0 ==> forall id ::
          id in ids <==> id in History.Below(cat, cursor) && cat.shows(id) && id >= page.batches[n - 1])
      && (n == |page.batches| && !page.hasNext
          ==> forall id :: id in ids <==> id in History.Below(cat, cursor) && cat.shows(id))
  {
    hide History.PageBelow, History.Below, HistoryPaging.Descending, HistoryPaging.OlderSplit, History.ExaminedBelow,
        History.Charge, History.Showing;
    var page := History.PageBelow(cat, cursor, limit, MAX_BYTES);
    var low := HistoryPaging.OlderPageIsTopRun(cat, cursor, limit, MAX_BYTES);
    DescendingPrefix(page.batches, n);
    if n > 0 { assert page.batches[n - 1] in page.batches; }
    if n == |page.batches| { assert page.batches[..n] == page.batches; }
  }

  /** An issued part is the highest-id run of the batches that are due: a complete part
      carries all of them, a truncated one exactly those from its continuation cursor
      up, and that cursor is itself one of them. */
  lemma PartIsTopRun(q: Request, cursor: int, now: int, pack: Evidence)
    requires q.EndsAs(cursor, now, Issued(pack))
    ensures var ids := IdsOf(pack.content.batches);
      && HistoryPaging.Descending(ids)
      && (forall id :: id in ids <==> q.Due(cursor, id) && (pack.content.truncated ==> id >= pack.content.nextCursor))
      && (pack.content.truncated ==> q.Due(cursor, pack.content.nextCursor))
  {
    hide History.PageBelow, ExportEndsAs, History.Below, CatalogOf;
    var n := PartShape(q, cursor, now, pack);
    PagePrefixIsTopRun(q.Catalog(), cursor, ExportLimit(q.limit), n);
  }

  // ---------------------------------------------------------------- the chain of parts

  /** Parts exported one after another, each from the cursor the one before left; the
      last one is complete. */
  ghost predicate Parts(q: Request, cursor: int, packs: seq<Evidence>, times: seq<int>)
    decreases |packs|
  {
    && |packs| == |times| && packs != []
    && q.EndsAs(cursor, times[0], Issued(packs[0]))
    && if packs[0].content.truncated then Parts(q, packs[0].content.nextCursor, packs[1..], times[1..])
        else |packs| == 1
  }

  function IdsOfAll(packs: seq<Evidence>): seq<int> {
    if packs == [] then [] else IdsOf(packs[0].content.batches) + IdsOfAll(packs[1..])
  }

  lemma NextDue(q: Request, cursor: int, next: int, id: int)
    requires q.Due(cursor, next) && next > 0
    ensures q.Due(next, id) <==> q.Due(cursor, id) && id < next
  {
  }

  /** Exporting until nothing is left covers every due batch exactly once, newest first. */
  lemma {:induction false} PartsCoverAll(q: Request, cursor: int, packs: seq<Evidence>, times: seq<int>)
    requires History.Positive(q.Catalog()) && Parts(q, cursor, packs, times)
    ensures HistoryPaging.Descending(IdsOfAll(packs))
    ensures forall id :: id in IdsOfAll(packs) <==> q.Due(cursor, id)
    decreases |packs|
  {
    hide ExportEndsAs, IdsOf, History.Below;
    PartIsTopRun(q, cursor, times[0], packs[0]);
    var ids, rest := IdsOf(packs[0].content.batches), IdsOfAll(packs[1..]);
    if packs[0].content.truncated {
      var next := packs[0].content.nextCursor;
      assert next > 0 by { DueMatches(q, cursor, next); }
      PartsCoverAll(q, next, packs[1..], times[1..]);
      forall id ensures q.Due(next, id) <==> q.Due(cursor, id) && id < next { NextDue(q, cursor, next, id); }
      forall i, j | 0 <= i < |ids| && 0 <= j < |rest| ensures ids[i] > rest[j] {
        assert ids[i] in ids && rest[j] in rest;
      }
    }
  }

  /** Parts exported so far, with more to come. */
  ghost predicate Unfinished(q: Request, cursor: int, packs: seq<Evidence>, times: seq<int>)
    decreases |packs|
  {
    && |packs| == |times|
    && (packs != [] ==>
          && q.EndsAs(cursor, times[0], Issued(packs[0])) && packs[0].content.truncated
          && Unfinished(q, packs[0].content.nextCursor, packs[1..], times[1..]))
  }

  /** Each truncated part uses up at least one batch, so a run of them ends. */
  lemma {:induction false} UnfinishedIsBounded(q: Request, cursor: int, packs: seq<Evidence>, times: seq<int>)
    requires History.Positive(q.Catalog()) && Unfinished(q, cursor, packs, times)
    ensures |packs| <= |History.Below(q.Catalog(), cursor)|
    decreases |packs|
  {
    hide ExportEndsAs, IdsOf, History.Below;
    if packs != [] {
      PartIsTopRun(q, cursor, times[0], packs[0]);
      var next := packs[0].content.nextCursor;
      HistoryPaging.BelowShrinks(q.Catalog(), cursor, next);
      UnfinishedIsBounded(q, next, packs[1..], times[1..]);
    }
  }

  lemma DueMatches(q: Request, cursor: int, id: int)
    requires q.Due(cursor, id)
    ensures id in q.Catalog().ids && id in History.Below(q.Catalog(), cursor)
  {
  }

  // ---------------------------------------------------------------- progress

  /** The first batch of a page fits a pack of its own: its events, the reach of the
      fetched links, and its encoded size. An empty page needs only the size. */
  ghost predicate FirstFits(w: World, r: Reading, now: int) {
    if r.batches == [] then Fits(w, r, now, 0)
    else
      && |r.batches[0].events| <= MAX_EVENTS
      && (r.batches[0].sequence > 0 ==> CheckpointSequence(r.batches[0].sequence) >= FirstLink(r.links))
      && Fits(w, r, now, 1)
  }

  ghost predicate Exportable(q: Request, cursor: int, now: int) {
    var page := q.Page(cursor);
    && AllReadable(q.w, q.db, q.filter, page.batches)
    && (page.batches == [] ==> !page.hasNext)
    && var r := ReadingOf(q.w, q.db, q.filter, page);
    && Uniform(r.batches) && FirstFits(q.w, r, now)
  }

  lemma CapPositive(r: Reading)
    requires r.batches != []
    ensures CapOf(r) > 0 <==>
      && |r.batches[0].events| <= MAX_EVENTS
      && (r.batches[0].sequence > 0 ==> CheckpointSequence(r.batches[0].sequence) >= FirstLink(r.links))
  {
  }

  lemma PageCursor(q: Request, cursor: int)
    ensures var page := q.Page(cursor);
      && (page.hasNext && page.batches != [] ==> page.nextCursor == page.batches[|page.batches| - 1])
      && (page.truncated ==> page.hasNext)
      && (!page.hasNext ==> page.nextCursor == 0)
  {
    hide History.Fit, History.Showing, History.Charge, Sets.TopIds, History.Below, History.Above;
  }

  /** Every non-empty prefix of a page can name its continuation. */
  lemma PageBuilds(q: Request, cursor: int, now: int, n: nat)
    requires History.Positive(q.Catalog()) && AllReadable(q.w, q.db, q.filter, q.Page(cursor).batches)
    requires 0 < n <= |q.Page(cursor).batches|
    ensures Build(q.w, ReadingOf(q.w, q.db, q.filter, q.Page(cursor)), now, n).Some?
  {
    hide History.PageBelow, FetchedLinks, AllReadable, Build, Pack.Exported;
    var page := q.Page(cursor);
    var r := ReadingOf(q.w, q.db, q.filter, page);
    PageCursor(q, cursor);
    PagePrefixIsTopRun(q.Catalog(), cursor, ExportLimit(q.limit), n);
    IdsOfPart(q.w, q.db, q.filter, page.batches, n);
    LastIdBuilds(q.w, r, now, n, page.batches[n - 1]);
  }

  lemma LastIdBuilds(w: World, r: Reading, now: int, n: nat, last: int)
    requires 0 < n <= |r.batches| && last > 0 && IdsOf(r.batches[..n])[n - 1] == last
    requires n == |r.batches| && r.hasNext ==> r.nextCursor == last
    ensures Build(w, r, now, n).Some?
  {
    hide LinksFor;
    assert r.batches[..n][n - 1] == r.batches[n - 1];
  }

  /** A larger part of one reading never fits when a smaller one does not. */
  ghost predicate SizeGrows(w: World, r: Reading, now: int) {
    forall m, n | 0 < m <= n <= |r.batches| && Fits(w, r, now, n) :: Fits(w, r, now, m)
  }

  /** A part is issued when its page can be read and the first batch alone fits. */
  lemma ExportableIssues(q: Request, cursor: int, now: int, outcome: Outcome)
    requires History.Positive(q.Catalog()) && q.EndsAs(cursor, now, outcome)
    requires Exportable(q, cursor, now)
    ensures outcome.Issued?
  {
    hide Build, WithinCaps, Uniform, History.PageBelow, Pack.Exported, FetchedLinks, History.Below;
    var page := q.Page(cursor);
    var r := ReadingOf(q.w, q.db, q.filter, page);
    PageCursor(q, cursor);
    if r.batches != [] {
      CapPositive(r);
      PageBuilds(q, cursor, now, CapOf(r));
    }
  }

  /** When parts grow with their batches, nothing else is issued. */
  lemma OnlyExportableIssues(q: Request, cursor: int, now: int, pack: Evidence)
    requires History.Positive(q.Catalog()) && q.EndsAs(cursor, now, Issued(pack))
    requires SizeGrows(q.w, ReadingOf(q.w, q.db, q.filter, q.Page(cursor)), now)
      || !AllReadable(q.w, q.db, q.filter, q.Page(cursor).batches)
    ensures Exportable(q, cursor, now)
  {
    hide Build, WithinCaps, Uniform, History.PageBelow, Pack.Exported, FetchedLinks, History.Below;
    var n := IssuedPrefix(q, cursor, now, pack);
    var r := ReadingOf(q.w, q.db, q.filter, q.Page(cursor));
    if r.batches != [] {
      CapPositive(r);
    } else {
      EmptyBuilds(q.w, r, now);
    }
  }

  lemma EmptyBuilds(w: World, r: Reading, now: int)
    requires r.batches == []
    ensures Build(w, r, now, 0).Some? <==> !r.hasNext
  {
  }

  /** A page of matching batches none of which has events leaves the export without a
      continuation: it fails, although older batches are still to be exported. */
  lemma EmptyRunBlocksExport(q: Request, cursor: int, now: int, outcome: Outcome)
    requires q.EndsAs(cursor, now, outcome)
    requires q.Page(cursor).batches == [] && q.Page(cursor).hasNext && !q.Page(cursor).truncated
    ensures outcome == NoContinuation
  {
    hide History.PageBelow;
    var r := ReadingOf(q.w, q.db, q.filter, q.Page(cursor));
    EmptyBuilds(q.w, r, now);
  }

  // ---------------------------------------------------------------- acceptance

  lemma ExportReads(q: Request, cursor: int)
    requires SoundWorld(q.w) && Inv(q.w.env, q.db)
    requires AllReadable(q.w, q.db, q.filter, q.Page(cursor).batches)
    requires Uniform(ReadingOf(q.w, q.db, q.filter, q.Page(cursor)).batches)
    ensures GoodReading(q.w, q.db, q.filter, q.Page(cursor).batches, ReadingOf(q.w, q.db, q.filter, q.Page(cursor)))
  {
    hide History.PageBelow, Pack.Exported, FetchedLinks, Uniform, Inv, SoundWorld, History.Below, AllReadable;
    var page := q.Page(cursor);
    PageCursor(q, cursor);
    var low := HistoryPaging.OlderPageIsTopRun(q.Catalog(), cursor, ExportLimit(q.limit), MAX_BYTES);
    forall id | id in page.batches ensures ShownOf(q.db, q.filter, id) != [] { assert q.Catalog().shows(id); }
  }

  /** Every pack that an export of a sound store issues is accepted by the offline
      verifier if and only if each of its batches explains itself. */
  lemma IssuedPackAccepted(q: Request, cursor: int, now: int, pack: Evidence)
    requires SoundWorld(q.w) && Inv(q.w.env, q.db) && q.EndsAs(cursor, now, Issued(pack))
    ensures Accepts(q.w, pack, Some(q.w.publicBytes))
        <==> PartExplained(q.w, q.db, q.filter, IdsOf(pack.content.batches))
  {
    hide History.PageBelow, Pack.Exported, FetchedLinks, Uniform, Inv, SoundWorld, AllReadable, Accepts,
        PartExplained, Build, WithinCaps;
    var n := IssuedPrefix(q, cursor, now, pack);
    var page := q.Page(cursor);
    var r := ReadingOf(q.w, q.db, q.filter, page);
    ExportReads(q, cursor);
    IssuedPartAccepted(q.w, q.db, q.filter, page.batches, r, now, n);
    IdsOfPart(q.w, q.db, q.filter, page.batches, n);
    BuiltBatches(q.w, r, now, n);
  }

  lemma BuiltBatches(w: World, r: Reading, now: int, n: nat)
    requires n <= |r.batches| && Build(w, r, now, n).Some?
    ensures Build(w, r, now, n).value.content.batches == r.batches[..n]
  {
  }
}
