/** The bounded export: read one history page, cut it to the caps, and find the largest
    prefix whose signed encoding fits.
 */
module PackExport {
  import opened Crypto
  import opened LedgerSpec
  import opened Pack
  import opened PackVerify
  import opened Audit
  import History
  import Sets

  datatype Outcome = Issued(pack: Evidence) | TooLarge | Mixed | Unreadable | NoContinuation

  // ---------------------------------------------------------------- reading

  function CatalogOf(db: Db, filter: Filter, cost: int -> nat): History.Catalog {
    History.Catalog(
      (set id | id in db.batches && filter.batch(id, db.batches[id])
          && (filter.narrowed ==> ShownOf(db, filter, id) != [])),
      id => ShownOf(db, filter, id) != [],
      cost)
  }

  predicate AllReadable(w: World, db: Db, filter: Filter, ids: seq<int>) {
    forall id | id in ids :: id in db.batches && Readable(w, ShownOf(db, filter, id))
  }

  function BatchesOf(w: World, db: Db, filter: Filter, ids: seq<int>): (r: seq<Batch>)
    requires AllReadable(w, db, filter, ids)
    ensures |r| == |ids| && forall i | 0 <= i < |ids| :: r[i] == Exported(w, db, filter, ids[i])
  {
    seq(|ids|, i requires 0 <= i < |ids| => Pack.Exported(w, db, filter, ids[i]))
  }

  /** Everything an export has read before it starts cutting. */
  datatype Reading = Reading(batches: seq<Batch>, links: seq<Entry>, hasNext: bool, nextCursor: int, head: string)

  function ReadingOf(w: World, db: Db, filter: Filter, page: History.Page): Reading
    requires AllReadable(w, db, filter, page.batches)
  {
    var batches := BatchesOf(w, db, filter, page.batches);
    Reading(batches, FetchedLinks(db.ledger, batches), page.hasNext, page.nextCursor, LedgerHead(db))
  }

  // ---------------------------------------------------------------- cutting

  /** The content of the evidence pack that carries the first `count` batches. */
  function ContentOf(r: Reading, count: nat): Content
    requires count <= |r.batches|
  {
    var part := r.batches[..count];
    var cut := count < |r.batches|;
    Content(VERSION, part, LinksFor(part, r.links), cut || r.hasNext,
            if !cut then r.nextCursor else if count > 0 then r.batches[count - 1].id else 0, r.head)
  }

  /** None when a truncated part could not name its last batch as the continuation. */
  function Build(w: World, r: Reading, generatedAt: int, count: nat): Option<Evidence>
    requires count <= |r.batches|
  {
    var content := ContentOf(r, count);
    if CursorOk(content) || !content.truncated then Some(SignedPack(w, content, generatedAt)) else None
  }

  predicate Fits(w: World, r: Reading, generatedAt: int, count: nat)
    requires count <= |r.batches|
  {
    Build(w, r, generatedAt, count).Some? && w.size(Build(w, r, generatedAt, count).value) <= MAX_BYTES
  }

  function CapOf(r: Reading): (n: nat)
    ensures n <= |r.batches|
  {
    WithinCaps(r.batches, FirstLink(r.links), 0)
  }

  /** Every part but the last can name its continuation. */
  lemma CutBuilds(w: World, r: Reading, generatedAt: int, count: nat)
    requires 0 < count < |r.batches| && forall b | b in r.batches :: b.id > 0
    ensures Build(w, r, generatedAt, count).Some?
  {
    assert r.batches[..count][count - 1] == r.batches[count - 1];
    assert r.batches[count - 1] in r.batches;
  }

  // ---------------------------------------------------------------- the loops

  method EvidenceBatchesWithinCaps(batches: seq<Batch>, links: seq<Entry>) returns (n: nat)
    ensures n == WithinCaps(batches, FirstLink(links), 0)
  {
    var firstLink := 0;
    if |links| > 0 { firstLink := links[0].sequence; }
    var events: nat := 0;
    var i := 0;
    while i < |batches|
      invariant 0 <= i <= |batches|
      invariant WithinCaps(batches, firstLink, 0) == i + WithinCaps(batches[i..], firstLink, events)
    {
      assert batches[i..][0] == batches[i] && batches[i..][1..] == batches[i + 1..];
      var total := events + |batches[i].events|;
      if total > MAX_EVENTS { return i; }
      if batches[i].sequence > 0 && CheckpointSequence(batches[i].sequence) < firstLink { return i; }
      events := total;
      i := i + 1;
    }
    return |batches|;
  }

  method SequenceRange(batches: seq<Batch>) returns (lo: int, hi: int)
    ensures lo == LowSequence(batches) && hi == HighSequence(batches)
  {
    lo, hi := 0, 0;
    for i := 0 to |batches|
      invariant lo == LowSequence(batches[..i]) && hi == HighSequence(batches[..i])
    {
      assert batches[..i + 1][..i] == batches[..i];
      var sequence := batches[i].sequence;
      if sequence != 0 {
        if lo == 0 || sequence < lo { lo := sequence; }
        if sequence > hi { hi := sequence; }
      }
    }
    assert batches[..|batches|] == batches;
  }

  lemma {:induction false} BetweenSnoc(links: seq<Entry>, last: Entry, lo: int, hi: int)
    ensures Between(links + [last], lo, hi) == Between(links, lo, hi)
        + (if lo <= last.sequence <= hi then [last] else [])
    decreases |links|
  {
    if links != [] {
      assert (links + [last])[1..] == links[1..] + [last];
      BetweenSnoc(links[1..], last, lo, hi);
    }
  }

  method EvidenceLinksFor(batches: seq<Batch>, links: seq<Entry>) returns (out: seq<Entry>)
    ensures out == LinksFor(batches, links)
  {
    hide LowSequence, HighSequence, Between;
    var lo, hi := SequenceRange(batches);
    out := [];
    if lo == 0 { return; }
    var start := CheckpointSequence(lo);
    NoneBetween(start, hi);
    for i := 0 to |links|
      invariant out == Between(links[..i], start, hi)
    {
      assert links[..i + 1] == links[..i] + [links[i]];
      BetweenSnoc(links[..i], links[i], start, hi);
      if start <= links[i].sequence <= hi { out := out + [links[i]]; }
    }
    assert links[..|links|] == links;
  }

  lemma NoneBetween(lo: int, hi: int)
    ensures Between([], lo, hi) == []
  {
  }

  method BuildPart(w: World, r: Reading, generatedAt: int, count: nat) returns (part: Option<Evidence>)
    requires count <= |r.batches|
    ensures part == Build(w, r, generatedAt, count)
  {
    var links := EvidenceLinksFor(r.batches[..count], r.links);
    var truncated, nextCursor := r.hasNext, r.nextCursor;
    if count < |r.batches| {
      truncated := true;
      nextCursor := if count > 0 then r.batches[count - 1].id else 0;
    }
    var content := Content(VERSION, r.batches[..count], links, truncated, nextCursor, r.head);
    if truncated && (nextCursor <= 0 || count == 0 || r.batches[count - 1].id != nextCursor) { return None; }
    return Some(SignedPack(w, content, generatedAt));
  }

  /** The largest prefix that fits, by binary search over the prefixes below `fit`. The
      result is never oversized, and the next longer prefix does not fit; when even one
      batch does not fit there is no result. */
  method LargestFittingPrefix(w: World, r: Reading, generatedAt: int, fit: nat)
    returns (found: Option<Evidence>, count: nat)
    requires fit <= |r.batches| && !Fits(w, r, generatedAt, fit)
    requires forall n | 0 < n < fit :: Build(w, r, generatedAt, n).Some?
    ensures found.Some? ==>
      && 0 < count < fit && found == Build(w, r, generatedAt, count)
      && Fits(w, r, generatedAt, count) && !Fits(w, r, generatedAt, count + 1)
    ensures found.None? ==> fit > 0 ==> !Fits(w, r, generatedAt, 1)
  {
    hide Build;
    var good, bad := 0, fit;
    found := None;
    while good + 1 < bad
      invariant 0 <= good <= bad <= fit && (good == bad ==> fit == 0)
      invariant good > 0 ==> found == Build(w, r, generatedAt, good) && Fits(w, r, generatedAt, good)
      invariant good == 0 ==> found.None?
      invariant !Fits(w, r, generatedAt, bad)
      decreases bad - good
    {
      var middle := (good + bad) / 2;
      var candidate := BuildPart(w, r, generatedAt, middle);
      if w.size(candidate.value) <= MAX_BYTES {
        good, found := middle, candidate;
      } else {
        bad := middle;
      }
    }
    count := good;
  }

  /** How an export ends, given what it has read. */
  ghost predicate EndsAs(w: World, r: Reading, generatedAt: int, outcome: Outcome) {
    var fit := CapOf(r);
    if !Uniform(r.batches) then outcome == Mixed
    else if fit == 0 && r.batches != [] then outcome == TooLarge
    else if Build(w, r, generatedAt, fit).None? then outcome == NoContinuation
    else if Fits(w, r, generatedAt, fit) then outcome == Issued(Build(w, r, generatedAt, fit).value)
    else
      || (outcome == TooLarge && (fit > 0 ==> !Fits(w, r, generatedAt, 1)))
      || exists n | 0 < n < fit ::
          Fits(w, r, generatedAt, n) && !Fits(w, r, generatedAt, n + 1)
          && outcome == Issued(Build(w, r, generatedAt, n).value)
  }

  method CutAndSign(w: World, r: Reading, generatedAt: int) returns (outcome: Outcome)
    requires forall b | b in r.batches :: b.id > 0
    ensures EndsAs(w, r, generatedAt, outcome)
  {
    hide WithinCaps, Build, Uniform;
    var uniform := ValidateLedgerBatchState(r.batches);
    if !uniform { return Mixed; }
    var fit := EvidenceBatchesWithinCaps(r.batches, r.links);
    if fit == 0 && |r.batches| > 0 { return TooLarge; }
    var encoded := BuildPart(w, r, generatedAt, fit);
    if encoded.None? { return NoContinuation; }
    if w.size(encoded.value) <= MAX_BYTES { return Issued(encoded.value); }
    forall n | 0 < n < fit ensures Build(w, r, generatedAt, n).Some? { CutBuilds(w, r, generatedAt, n); }
    var found, count := LargestFittingPrefix(w, r, generatedAt, fit);
    if found.None? { return TooLarge; }
    return Issued(found.value);
  }

  function ExportLimit(limit: int): (r: int)
    ensures 1 <= r <= MAX_BATCHES
  {
    if limit <= 0 || limit > MAX_BATCHES then MAX_BATCHES else limit
  }

  /** The page an export reads: older batches from the cursor, under the byte budget. */
  function ExportPage(db: Db, filter: Filter, cost: int -> nat, cursor: int, limit: int): History.Page {
    History.PageBelow(CatalogOf(db, filter, cost), cursor, ExportLimit(limit), MAX_BYTES)
  }

  /** How the export of one part ends. */
  ghost predicate ExportEndsAs(w: World, db: Db, filter: Filter, cost: int -> nat, cursor: int, limit: int,
          generatedAt: int, outcome: Outcome) {
    var page := ExportPage(db, filter, cost, cursor, limit);
    if page.batches == [] && page.truncated then outcome == TooLarge
    else if !AllReadable(w, db, filter, page.batches) then outcome == Unreadable
    else EndsAs(w, ReadingOf(w, db, filter, page), generatedAt, outcome)
  }

  method ExportEvidencePack(w: World, db: Db, filter: Filter, cost: int -> nat, cursor: int, limit: int,
          generatedAt: int) returns (outcome: Outcome)
    requires forall id | id in db.batches :: id > 0
    ensures ExportEndsAs(w, db, filter, cost, cursor, limit, generatedAt, outcome)
  {
    hide EndsAs, History.Fit, History.Showing, Pack.Exported, FetchedLinks;
    var page := History.ListHistory(CatalogOf(db, filter, cost), cursor, 0, ExportLimit(limit), MAX_BYTES);
    assert page == ExportPage(db, filter, cost, cursor, limit);
    if |page.batches| == 0 && page.truncated { return TooLarge; }
    if !AllReadable(w, db, filter, page.batches) { return Unreadable; }
    var r := ReadingOf(w, db, filter, page);
    forall b | b in r.batches ensures b.id > 0 { ExportedIds(w, db, filter, page.batches, b); }
    outcome := CutAndSign(w, r, generatedAt);
  }

  lemma ExportedIds(w: World, db: Db, filter: Filter, ids: seq<int>, b: Batch)
    requires AllReadable(w, db, filter, ids) && b in BatchesOf(w, db, filter, ids)
    ensures b.id in ids && b.id in db.batches
  {
    var i :| 0 <= i < |ids| && BatchesOf(w, db, filter, ids)[i] == b;
    assert ids[i] in ids;
  }

  /** An issued evidence pack is never oversized, whatever was read. */
  lemma NeverOversized(w: World, r: Reading, generatedAt: int, outcome: Outcome)
    requires EndsAs(w, r, generatedAt, outcome) && outcome.Issued?
    ensures w.size(outcome.pack) <= MAX_BYTES
    ensures exists n | 0 <= n <= CapOf(r) ::
        (n == 0 ==> r.batches == []) && Some(outcome.pack) == Build(w, r, generatedAt, n)
  {
    hide Build, WithinCaps;
  }

  /** When a prefix that does not fit only grows worse with more batches, the exported prefix is the longest
      one within the caps that fits. */
  lemma LargestWhenMonotone(w: World, r: Reading, generatedAt: int, outcome: Outcome)
    requires EndsAs(w, r, generatedAt, outcome) && outcome.Issued?
    requires forall m, n | 0 < m <= n <= CapOf(r) && !Fits(w, r, generatedAt, m) :: !Fits(w, r, generatedAt, n)
    ensures exists k | 0 <= k <= CapOf(r) ::
      Some(outcome.pack) == Build(w, r, generatedAt, k) && forall n | k < n <= CapOf(r) :: !Fits(w, r, generatedAt, n)
  {
    hide Build, WithinCaps;
    var fit := CapOf(r);
    if !Fits(w, r, generatedAt, fit) {
      var k :| 0 < k < fit && Fits(w, r, generatedAt, k) && !Fits(w, r, generatedAt, k + 1)
          && outcome == Issued(Build(w, r, generatedAt, k).value);
      assert !Fits(w, r, generatedAt, k + 1);
    }
  }
}
