/** Whole exports end: following continuation cursors completes if and only if every cursor
    reached can be exported from, and per-batch budgets see to that.
 */
module PackCovers {
  import opened Crypto
  import opened LedgerSpec
  import opened LedgerInvariant
  import opened Pack
  import opened PackVerify
  import opened PackExport
  import opened PackComplete
  import opened PackTheorem
  import opened PackChain
  import History
  import HistoryPaging
  import Sets

  // ---------------------------------------------------------------- one part

  /** A first part that fits, and a whole one that does not, leave a border between. */
  lemma {:induction false} Crossing(w: World, r: Reading, now: int, good: nat, bad: nat) returns (n: nat)
    requires 0 < good < bad <= |r.batches| && Fits(w, r, now, good) && !Fits(w, r, now, bad)
    ensures good <= n < bad && Fits(w, r, now, n) && !Fits(w, r, now, n + 1)
    decreases bad - good
  {
    hide Fits;
    if !Fits(w, r, now, good + 1) { n := good; } else { n := Crossing(w, r, now, good + 1, bad); }
  }

  /** Where a part can be exported, one is issued. */
  lemma SomePart(q: Request, cursor: int, now: int) returns (pack: Evidence)
    requires History.Positive(q.Catalog()) && Exportable(q, cursor, now)
    ensures q.EndsAs(cursor, now, Issued(pack))
  {
    hide Build, WithinCaps, Uniform, History.PageBelow, Pack.Exported, FetchedLinks, History.Below;
    var page := q.Page(cursor);
    var r := ReadingOf(q.w, q.db, q.filter, page);
    var fit := CapOf(r);
    PageCursor(q, cursor);
    if r.batches != [] {
      CapPositive(r);
      PageBuilds(q, cursor, now, fit);
    }
    if Fits(q.w, r, now, fit) {
      pack := Build(q.w, r, now, fit).value;
    } else {
      var n := Crossing(q.w, r, now, 1, fit);
      pack := Build(q.w, r, now, n).value;
    }
  }

  /** Of the parts that one cursor can leave, the larger never fit when a smaller does not. */
  ghost predicate GrowsAt(q: Request, cursor: int, now: int) {
    AllReadable(q.w, q.db, q.filter, q.Page(cursor).batches) ==>
      SizeGrows(q.w, ReadingOf(q.w, q.db, q.filter, q.Page(cursor)), now)
  }

  ghost predicate Grows(q: Request) {
    forall cursor, now :: GrowsAt(q, cursor, now)
  }

  lemma OnePart(q: Request, cursor: int, now: int, a: Evidence, b: Evidence)
    requires Grows(q) && q.EndsAs(cursor, now, Issued(a)) && q.EndsAs(cursor, now, Issued(b))
    ensures a == b
  {
    hide Build, WithinCaps, Uniform, History.PageBelow, Pack.Exported, FetchedLinks;
    var r := ReadingOf(q.w, q.db, q.filter, q.Page(cursor));
    assert GrowsAt(q, cursor, now);
    var fit := CapOf(r);
    if !Fits(q.w, r, now, fit) {
      var m :| 0 < m < fit && Fits(q.w, r, now, m) && !Fits(q.w, r, now, m + 1)
          && Issued(a) == Issued(Build(q.w, r, now, m).value);
      var n :| 0 < n < fit && Fits(q.w, r, now, n) && !Fits(q.w, r, now, n + 1)
          && Issued(b) == Issued(Build(q.w, r, now, n).value);
      assert m == n;
    }
  }

  // ---------------------------------------------------------------- the chain

  /** The times of `n` exports from the k-th on. */
  function Ticks(clock: nat -> int, k: nat, n: nat): (r: seq<int>)
    ensures |r| == n
  {
    seq(n, i requires 0 <= i < n => clock(k + i))
  }

  lemma TicksCons(clock: nat -> int, k: nat, n: nat)
    requires n > 0
    ensures Ticks(clock, k, n)[0] == clock(k) && Ticks(clock, k, n)[1..] == Ticks(clock, k + 1, n - 1)
  {
  }

  /** The cursor that a run of truncated parts has left. */
  function CursorAfter(cursor: int, packs: seq<Evidence>): int
    decreases |packs|
  {
    if packs == [] then cursor else CursorAfter(packs[0].content.nextCursor, packs[1..])
  }

  ghost predicate Stops(q: Request, cursor: int, clock: nat -> int, k: nat, packs: seq<Evidence>) {
    Unfinished(q, cursor, packs, Ticks(clock, k, |packs|))
        && !Exportable(q, CursorAfter(cursor, packs), clock(k + |packs|))
  }

  ghost predicate Completes(q: Request, cursor: int, clock: nat -> int, k: nat, packs: seq<Evidence>) {
    Parts(q, cursor, packs, Ticks(clock, k, |packs|))
  }

  lemma Prepended(q: Request, cursor: int, clock: nat -> int, k: nat, first: Evidence, rest: seq<Evidence>)
    requires q.EndsAs(cursor, clock(k), Issued(first)) && first.content.truncated
    ensures Completes(q, first.content.nextCursor, clock, k + 1, rest)
        ==> Completes(q, cursor, clock, k, [first] + rest)
    ensures Stops(q, first.content.nextCursor, clock, k + 1, rest) ==> Stops(q, cursor, clock, k, [first] + rest)
  {
    hide ExportEndsAs, Exportable;
    var packs := [first] + rest;
    assert packs[1..] == rest;
    TicksCons(clock, k, |packs|);
  }

  /** However long it takes, exporting from the cursors completes or stops at a cursor from
      which nothing can be exported. */
  lemma {:induction false} CompletesOrStops(q: Request, cursor: int, clock: nat -> int, k: nat)
    returns (packs: seq<Evidence>)
    requires History.Positive(q.Catalog())
    ensures Completes(q, cursor, clock, k, packs) || Stops(q, cursor, clock, k, packs)
    decreases |History.Below(q.Catalog(), cursor)|
  {
    hide ExportEndsAs, IdsOf, History.Below, Exportable;
    packs := [];
    if Exportable(q, cursor, clock(k)) {
      var first := SomePart(q, cursor, clock(k));
      if first.content.truncated {
        PartIsTopRun(q, cursor, clock(k), first);
        var next := first.content.nextCursor;
        DueMatches(q, cursor, next);
        HistoryPaging.BelowShrinks(q.Catalog(), cursor, next);
        var rest := CompletesOrStops(q, next, clock, k + 1);
        Prepended(q, cursor, clock, k, first, rest);
        packs := [first] + rest;
      } else {
        packs := [first];
        assert Ticks(clock, k, 1)[0] == clock(k);
      }
    }
  }

  lemma {:induction false} NeverBoth(q: Request, cursor: int, clock: nat -> int, k: nat, done: seq<Evidence>,
          stopped: seq<Evidence>)
    requires History.Positive(q.Catalog()) && Grows(q)
    requires Completes(q, cursor, clock, k, done) && Stops(q, cursor, clock, k, stopped)
    ensures false
    decreases |done|
  {
    hide ExportEndsAs, Exportable, SizeGrows, CatalogOf, ExportPage, History.Positive, ReadingOf, AllReadable;
    TicksCons(clock, k, |done|);
    if stopped == [] {
      assert GrowsAt(q, cursor, clock(k));
      OnlyExportableIssues(q, cursor, clock(k), done[0]);
    } else {
      TicksCons(clock, k, |stopped|);
      OnePart(q, cursor, clock(k), done[0], stopped[0]);
      NeverBoth(q, done[0].content.nextCursor, clock, k + 1, done[1..], stopped[1..]);
    }
  }

  /** Repeating an export with the continuation cursor of the part before completes if and
      only if every cursor it reaches can be exported from. */
  lemma CompletesIff(q: Request, cursor: int, clock: nat -> int)
    requires History.Positive(q.Catalog()) && Grows(q)
    ensures (exists packs :: Completes(q, cursor, clock, 0, packs))
        <==> !exists packs :: Stops(q, cursor, clock, 0, packs)
  {
    hide Completes, Stops, Grows;
    var packs := CompletesOrStops(q, cursor, clock, 0);
    if done, stopped :| Completes(q, cursor, clock, 0, done) && Stops(q, cursor, clock, 0, stopped) {
      NeverBoth(q, cursor, clock, 0, done, stopped);
    }
  }

  // ---------------------------------------------------------------- budgets of single batches

  function EmptyPack(q: Request, now: int): Evidence {
    SignedPack(q.w, Content(VERSION, [], [], false, 0, LedgerHead(q.db)), now)
  }

  /** The pack that carries one batch and nothing else. */
  function AlonePack(q: Request, id: int, truncated: bool, now: int): Evidence
    requires id in q.db.batches && Readable(q.w, ShownOf(q.db, q.filter, id))
  {
    var b := Pack.Exported(q.w, q.db, q.filter, id);
    SignedPack(q.w, Content(VERSION, [b], LinksFor([b], q.db.ledger), truncated, if truncated then id
        else 0, LedgerHead(q.db)), now)
  }

  /** One batch alone exceeds no budget: it fits the bytes of a page, it does not show too
      many events, and its pack fits the bytes of a pack whether or not others follow. */
  ghost predicate FitsAlone(q: Request, id: int, now: int)
    requires id in q.db.batches && Readable(q.w, ShownOf(q.db, q.filter, id))
  {
    && q.cost(id) <= MAX_BYTES && |ShownOf(q.db, q.filter, id)| <= MAX_EVENTS
    && q.w.size(AlonePack(q, id, true, now)) <= MAX_BYTES && q.w.size(AlonePack(q, id, false, now)) <= MAX_BYTES
  }

  ghost predicate WithinBudgets(q: Request, id: int, now: int) {
    && id in q.db.batches && q.Catalog().shows(id) && Readable(q.w, ShownOf(q.db, q.filter, id))
    && FitsAlone(q, id, now)
  }

  function SequenceOf(ledger: seq<Entry>, id: int): int {
    if EntryFor(ledger, id).Some? then EntryFor(ledger, id).value.sequence else 0
  }

  /** No older batch is so much later in the ledger that the links fetched for both would
      not reach the newer one's own predecessor. */
  ghost predicate Reaches(ledger: seq<Entry>, ids: set<int>) {
    forall x, y | x in ids && y in ids && y < x :: SequenceOf(ledger, y) - SequenceOf(ledger, x) <= MAX_LINKS - 2
  }

  ghost predicate AllWithinBudgets(q: Request, now: int) {
    && (forall id | id in q.Catalog().ids :: WithinBudgets(q, id, now))
    && q.w.size(EmptyPack(q, now)) <= MAX_BYTES
  }

  ghost predicate OneKind(q: Request) {
    (forall id | id in q.Catalog().ids :: Ledgered(q.db.ledger, id))
        || (forall id | id in q.Catalog().ids :: !Ledgered(q.db.ledger, id))
  }

  /** With affordable batches that all show, a page is empty only when nothing is below. */
  lemma PageFull(q: Request, cursor: int, now: int)
    requires AllWithinBudgets(q, now)
    ensures var page := q.Page(cursor);
      && (forall id | id in page.batches :: id in q.Catalog().ids)
      && HistoryPaging.Descending(page.batches)
      && (page.batches == [] ==> !page.hasNext)
  {
    hide History.PageBelow, CatalogOf, ShownOf, AlonePack, Readable, History.Showing, History.Charge,
        History.ExaminedBelow;
    var cat, limit := q.Catalog(), ExportLimit(q.limit);
    var low := HistoryPaging.OlderPageIsTopRun(cat, cursor, limit, MAX_BYTES);
    var page := q.Page(cursor);
    assert cat.cost == q.cost by { CatalogCost(q); }
    if page.batches == [] && page.hasNext {
      HistoryPaging.OlderCursorAdvances(cat, cursor, limit, MAX_BYTES);
    }
  }

  lemma CatalogCost(q: Request)
    ensures q.Catalog().cost == q.cost
  {
  }

  lemma PageReads(q: Request, cursor: int, now: int)
    requires Inv(q.w.env, q.db) && AllWithinBudgets(q, now) && OneKind(q)
    ensures var page := q.Page(cursor);
      && AllReadable(q.w, q.db, q.filter, page.batches) && Uniform(ReadingOf(q.w, q.db, q.filter, page).batches)
  {
    hide History.PageBelow, CatalogOf, ShownOf, AlonePack, Readable, Pack.Exported, FetchedLinks, Inv, Ledgered,
        EntryOk, LinkMatches, Bound;
    PageFull(q, cursor, now);
    var page := q.Page(cursor);
    var batches := BatchesOf(q.w, q.db, q.filter, page.batches);
    forall b | b in batches
      ensures b.sequence >= 0 && exists id | id in q.Catalog().ids :: b.sequence > 0 <==> Ledgered(q.db.ledger, id)
    {
      var i :| 0 <= i < |batches| && batches[i] == b;
      assert page.batches[i] in page.batches;
      ExportedEntry(q.w, q.db, q.filter, page.batches[i]);
    }
  }

  /** The newest of some batches has its own links among those fetched for all of them. */
  lemma FirstReached(env: Instance, ledger: seq<Entry>, batches: seq<Batch>)
    requires Chained(env, ledger) && batches != [] && (forall b | b in batches :: 0 <= b.sequence <= |ledger|)
    requires forall b | b in batches && b != batches[0] :: b.sequence - batches[0].sequence <= MAX_LINKS - 2
    ensures batches[0].sequence > 0
        ==> CheckpointSequence(batches[0].sequence) >= FirstLink(FetchedLinks(ledger, batches))
  {
    hide Chained, FetchedLinks;
    var first := batches[0];
    assert first in batches;
    if first.sequence > 0 {
      FetchedStart(env, ledger, batches);
      assert LowSequence(batches) <= first.sequence;
      var y :| y in batches && y.sequence == HighSequence(batches);
    }
  }

  lemma LinksAlone(env: Instance, ledger: seq<Entry>, batches: seq<Batch>)
    requires Chained(env, ledger) && (forall b | b in batches :: 0 <= b.sequence <= |ledger|)
    requires 1 <= WithinCaps(batches, FirstLink(FetchedLinks(ledger, batches)), 0)
    ensures batches != [] && LinksFor(batches[..1], FetchedLinks(ledger, batches)) == LinksFor([batches[0]], ledger)
  {
    hide Chained, FetchedLinks, Between, LowSequence, HighSequence;
    var part := batches[..1];
    assert part == [batches[0]] && batches[0] in batches;
    if SomeLedgered(part) {
      PartLinks(env, ledger, batches, 1);
      LedgerConsecutive(env, ledger);
      BetweenSlice(ledger, 1, CheckpointSequence(LowSequence(part)), HighSequence(part));
      assert LowSequence(part) > 0 by { assert batches[0] in part; }
    } else {
      NoLinks(part, FetchedLinks(ledger, batches));
      NoLinks(part, ledger);
    }
  }

  /** Batch i of a reading, by its id. */
  lemma ReadAt(q: Request, cursor: int, i: nat)
    requires Inv(q.w.env, q.db) && AllReadable(q.w, q.db, q.filter, q.Page(cursor).batches)
        && i < |q.Page(cursor).batches|
    ensures var b, id := ReadingOf(q.w, q.db, q.filter, q.Page(cursor)).batches[i], q.Page(cursor).batches[i];
      && id in q.db.batches && Readable(q.w, ShownOf(q.db, q.filter, id)) && b == Pack.Exported(q.w, q.db, q.filter, id)
      && b.id == id && |b.events| == |ShownOf(q.db, q.filter, id)| && b.sequence == SequenceOf(q.db.ledger, id)
          && 0 <= b.sequence <= |q.db.ledger|
  {
    hide History.PageBelow, FetchedLinks, Readable, ShownOf, Payload, TriggersOf, Shown, Inv, Bound, EntryOk;
    var id := q.Page(cursor).batches[i];
    assert id in q.Page(cursor).batches;
    ExportedEntry(q.w, q.db, q.filter, id);
  }

  lemma ReadFirst(q: Request, cursor: int, now: int)
    requires Inv(q.w.env, q.db) && AllWithinBudgets(q, now) && Reaches(q.db.ledger, q.Catalog().ids)
    requires AllReadable(q.w, q.db, q.filter, q.Page(cursor).batches) && q.Page(cursor).batches != []
    ensures var r := ReadingOf(q.w, q.db, q.filter, q.Page(cursor));
      && CapOf(r) > 0 && r.links == FetchedLinks(q.db.ledger, r.batches)
      && (forall b | b in r.batches :: 0 <= b.sequence <= |q.db.ledger|)
  {
    hide History.PageBelow, FetchedLinks, Readable, ShownOf, Inv, Chained, Pack.Exported, AllReadable, WithinCaps,
        CatalogOf, WithinBudgets;
    var page := q.Page(cursor);
    var r := ReadingOf(q.w, q.db, q.filter, page);
    PageFull(q, cursor, now);
    ReadAt(q, cursor, 0);
    assert page.batches[0] in page.batches;
    forall b | b in r.batches
      ensures 0 <= b.sequence <= |q.db.ledger|
          && (b != r.batches[0] ==> b.sequence - r.batches[0].sequence <= MAX_LINKS - 2)
    {
      var i :| 0 <= i < |r.batches| && r.batches[i] == b;
      ReadAt(q, cursor, i);
      assert page.batches[i] in page.batches;
    }
    InvChained(q.w.env, q.db);
    FirstReached(q.w.env, q.db.ledger, r.batches);
    assert |r.batches[0].events| <= MAX_EVENTS by {
      assert WithinBudgets(q, page.batches[0], now);
      BudgetEvents(q, page.batches[0], now);
    }
    CapPositive(r);
  }

  lemma InvChained(env: Instance, db: Db)
    requires Inv(env, db)
    ensures Chained(env, db.ledger)
  {
  }

  lemma BudgetEvents(q: Request, id: int, now: int)
    requires WithinBudgets(q, id, now)
    ensures |ShownOf(q.db, q.filter, id)| <= MAX_EVENTS
  {
  }

  /** A first part of one batch is the pack of that batch alone. */
  lemma FirstAlone(q: Request, cursor: int, now: int)
    requires Inv(q.w.env, q.db) && AllWithinBudgets(q, now) && Reaches(q.db.ledger, q.Catalog().ids)
        && History.Positive(q.Catalog())
    requires AllReadable(q.w, q.db, q.filter, q.Page(cursor).batches) && q.Page(cursor).batches != []
    ensures Fits(q.w, ReadingOf(q.w, q.db, q.filter, q.Page(cursor)), now, 1)
  {
    hide History.PageBelow, FetchedLinks, Readable, ShownOf, Inv, Chained, Pack.Exported, AllReadable, WithinCaps,
        CatalogOf, LinksFor, Reaches,
         AllWithinBudgets, History.Positive;
    var page := q.Page(cursor);
    var r := ReadingOf(q.w, q.db, q.filter, page);
    var id := page.batches[0];
    ReadFirst(q, cursor, now);
    ReadAt(q, cursor, 0);
    PageBuilds(q, cursor, now, 1);
    PageCursor(q, cursor);
    InvChained(q.w.env, q.db);
    LinksAlone(q.w.env, q.db.ledger, r.batches);
    assert r.batches[..1] == [r.batches[0]];
    BudgetAlone(q, cursor, now);
    assert Build(q.w, r, now, 1).value == AlonePack(q, id, 1 < |r.batches| || page.hasNext, now);
  }

  lemma BudgetAlone(q: Request, cursor: int, now: int)
    requires AllWithinBudgets(q, now) && q.Page(cursor).batches != []
    ensures WithinBudgets(q, q.Page(cursor).batches[0], now)
  {
    hide History.PageBelow, CatalogOf, WithinBudgets;
    PageFull(q, cursor, now);
    assert q.Page(cursor).batches[0] in q.Page(cursor).batches;
  }

  /** When no batch alone exceeds a budget, every cursor can be exported from. */
  lemma BudgetsExportable(q: Request, cursor: int, now: int)
    requires Inv(q.w.env, q.db) && AllWithinBudgets(q, now) && OneKind(q) && Reaches(q.db.ledger, q.Catalog().ids)
    ensures History.Positive(q.Catalog()) && Exportable(q, cursor, now)
  {
    hide History.PageBelow, FetchedLinks, Readable, ShownOf, Inv, Pack.Exported, AllReadable, WithinCaps, LinksFor,
        Reaches, Uniform, WithinBudgets;
    PositiveCatalog(q);
    PageReads(q, cursor, now);
    PageFull(q, cursor, now);
    var r := ReadingOf(q.w, q.db, q.filter, q.Page(cursor));
    if r.batches != [] {
      ReadFirst(q, cursor, now);
      CapPositive(r);
      FirstAlone(q, cursor, now);
    } else {
      PageCursor(q, cursor);
      EmptyAlone(q, r, now);
    }
  }

  lemma EmptyAlone(q: Request, r: Reading, now: int)
    requires AllWithinBudgets(q, now) && r == Reading([], FetchedLinks(q.db.ledger, []), false, 0, LedgerHead(q.db))
    ensures Fits(q.w, r, now, 0)
  {
    hide WithinBudgets, CatalogOf;
    assert r.batches[..0] == [];
  }

  lemma PositiveCatalog(q: Request)
    requires Inv(q.w.env, q.db)
    ensures History.Positive(q.Catalog())
  {
    hide ShownOf, Chained, Anchored, Bound;
  }

  /** Repeating an export with each continuation cursor, at whatever times, ends and has
      then covered every due batch exactly once, newest first, when no single batch
      exceeds a budget. */
  lemma BudgetsCoverAll(q: Request, cursor: int, clock: nat -> int) returns (packs: seq<Evidence>)
    requires Inv(q.w.env, q.db) && OneKind(q) && Reaches(q.db.ledger, q.Catalog().ids)
    requires forall k: nat :: AllWithinBudgets(q, clock(k))
    ensures Completes(q, cursor, clock, 0, packs)
    ensures HistoryPaging.Descending(IdsOfAll(packs))
    ensures forall id :: id in IdsOfAll(packs) <==> q.Due(cursor, id)
  {
    hide Exportable, AllWithinBudgets, OneKind, Reaches, Parts, CatalogOf, Inv, History.Positive, IdsOfAll, Unfinished;
    PositiveCatalog(q);
    packs := CompletesOrStops(q, cursor, clock, 0);
    if Stops(q, cursor, clock, 0, packs) {
      assert AllWithinBudgets(q, clock(|packs|));
      BudgetsExportable(q, CursorAfter(cursor, packs), clock(|packs|));
    }
    PartsCoverAll(q, cursor, packs, Ticks(clock, 0, |packs|));
  }
}
