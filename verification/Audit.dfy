/** The read-only ledger audit: one bounded page, the command that follows the
    pages, and the single predicate both amount to. Any stored ledger is audited,
    not only one this program wrote.
 */
module Audit {
  import opened Crypto
  import opened LedgerSpec

  /** The check that failed. */
  datatype Check = Sequence | EntryHash | Predecessor | KeyId | Signature
    | Continuity | PredecessorHash | GenesisPredecessor | Ledger(entry: Check) | BatchReference | PayloadDigest
    | CursorMissing | Cursor(anchor: Check) | StoredHead | CheckpointLength | CheckpointHead

  datatype Finding = Finding(sequence: int, check: Check)

  /** Running totals of a walk; `expected` is the next sequence, `previous` the hash
      it must continue from. */
  datatype Tally = Tally(entries: nat, verified: nat, unverifiable: nat, expected: int, previous: string,
          finding: Option<Finding>)

  /** An external checkpoint: the length the ledger must reach and, optionally, the
      hash it must hold there. `minSequence` 0 asks for nothing. */
  datatype Expectation = Expectation(minSequence: nat, head: Option<string>)

  datatype Page =
    | Rejected(finding: Finding)
    | Verified(entries: nat, verified: nat, unverifiable: nat, last: int, complete: bool, nextCursor: int)

  datatype Report = Failed(failure: Finding) | Passed(total: nat, checked: nat, withoutPayload: nat) | Stuck

  const PAGE_SIZE := 128
  const MAX_PAGE_SIZE := 1024

  function PageLimit(limit: int): (r: nat)
    ensures 1 <= r <= MAX_PAGE_SIZE
  {
    if limit <= 0 then PAGE_SIZE else if limit > MAX_PAGE_SIZE then MAX_PAGE_SIZE else limit
  }

  /** Primary-key order. */
  ghost predicate Sorted(ledger: seq<Entry>) {
    forall i, j | 0 <= i < j < |ledger| :: ledger[i].sequence < ledger[j].sequence
  }

  /** WHERE sequence > cursor, of rows in key order. */
  function After(ledger: seq<Entry>, cursor: int): (r: seq<Entry>)
    ensures |r| <= |ledger| && r == ledger[|ledger| - |r|..]
    ensures forall i | 0 <= i < |ledger| - |r| :: ledger[i].sequence <= cursor
    ensures r != [] ==> r[0].sequence > cursor
  {
    if ledger == [] then [] else if ledger[0].sequence > cursor then ledger else After(ledger[1..], cursor)
  }

  function Latest(ledger: seq<Entry>): int {
    if ledger == [] then 0 else ledger[|ledger| - 1].sequence
  }

  function ObservedHead(ledger: seq<Entry>): string {
    if ledger == [] then "" else ledger[|ledger| - 1].entryHash
  }

  /** The structural and signature checks of one entry: the failing check, if any. */
  function ValidateEntry(e: Entry, key: PublicKey, genesis: bool): Option<Check> {
    if e.sequence <= 0 then Some(Sequence)
    else if !IsHash(e.entryHash) then Some(EntryHash)
    else if e.prevHash != "" && !IsHash(e.prevHash) then Some(Predecessor)
    else if e.prevHash == "" && !genesis then Some(Predecessor)
    else if e.keyId != key.id then Some(KeyId)
    else if !key.verify(e.entryHash, e.signature) then Some(Signature)
    else None
  }

  function CheckEntry(env: Instance, db: Db, key: PublicKey, e: Entry, expected: int, previous: string): Option<Check> {
    if e.sequence != expected then Some(Continuity)
    else if e.sequence > 1 && e.prevHash != previous then Some(PredecessorHash)
    else if e.sequence == 1 && e.prevHash != "" then Some(GenesisPredecessor)
    else if ValidateEntry(e, key, e.sequence == 1).Some? then Some(Ledger(ValidateEntry(e, key, e.sequence == 1).value))
    else if e.batchId <= 0 then Some(BatchReference)
    else if e.batchId in db.batches
        && LedgerDigest(env.sha, e.prevHash, env.encode(Payload(db, e.batchId))) != e.entryHash then Some(PayloadDigest)
    else None
  }

  function WalkOne(env: Instance, db: Db, key: PublicKey, t: Tally, e: Entry): Tally {
    match CheckEntry(env, db, key, e, t.expected, t.previous)
    case Some(check) => t.(entries := t.entries + 1, finding := Some(Finding(e.sequence, check)))
    case None =>
      Tally(t.entries + 1, t.verified + 1, if e.batchId in db.batches then t.unverifiable else t.unverifiable + 1,
            t.expected + 1, e.entryHash, None)
  }

  /** Stops at the first finding. */
  function Walk(env: Instance, db: Db, key: PublicKey, t: Tally, entries: seq<Entry>): Tally
    decreases |entries|
  {
    if entries == [] || t.finding.Some? then t
    else Walk(env, db, key, WalkOne(env, db, key, t, entries[0]), entries[1..])
  }

  function HeadFinding(db: Db): Option<Finding> {
    var latest := Latest(db.ledger);
    var matches := if latest == 0 then db.head == "" else db.head == ObservedHead(db.ledger);
    if matches then None else Some(Finding(latest, StoredHead))
  }

  function CheckpointFinding(db: Db, want: Expectation): Option<Finding> {
    if want.minSequence == 0 then None
    else if Latest(db.ledger) < want.minSequence then Some(Finding(Latest(db.ledger), CheckpointLength))
    else if want.head.None? then None
    else match EntryAt(db.ledger, want.minSequence)
      case None => Some(Finding(want.minSequence, CheckpointHead))
      case Some(e) => if e.entryHash == want.head.value then None else Some(Finding(want.minSequence, CheckpointHead))
  }

  /** The checks that wait until the whole chain has been walked. */
  function FinalFinding(db: Db, want: Expectation): Option<Finding> {
    if HeadFinding(db).Some? then HeadFinding(db) else CheckpointFinding(db, want)
  }

  /** Totals of a walk that has not begun, about to read the entry after `sequence`. */
  function Origin(sequence: nat, previous: string): Tally {
    Tally(0, 0, 0, sequence + 1, previous, None)
  }

  /** Where a page starts: at genesis, or after an anchor that must itself be valid. */
  function Start(db: Db, key: PublicKey, cursor: nat): Tally {
    var t := Origin(cursor, "");
    if cursor == 0 then t
    else match EntryAt(db.ledger, cursor)
      case None => t.(finding := Some(Finding(cursor, CursorMissing)))
      case Some(anchor) =>
        match ValidateEntry(anchor, key, cursor == 1)
        case Some(check) => t.(finding := Some(Finding(cursor, Cursor(check))))
        case None => t.(previous := anchor.entryHash)
  }

  /** LIMIT n of the rows that are left. */
  function PageSize(left: nat, limit: int): (n: nat)
    ensures n <= left && (left > 0 ==> n > 0)
  {
    if left <= PageLimit(limit) then left else PageLimit(limit)
  }

  /** What a page concludes from its walk. */
  function Conclude(db: Db, want: Expectation, t: Tally): Page {
    var last := t.expected - 1;
    if t.finding.Some? then Rejected(t.finding.value)
    else if last < Latest(db.ledger) then Verified(t.entries, t.verified, t.unverifiable, last, false, last)
    else if FinalFinding(db, want).Some? then Rejected(FinalFinding(db, want).value)
    else Verified(t.entries, t.verified, t.unverifiable, last, true, 0)
  }

  function AuditPage(env: Instance, db: Db, key: PublicKey, cursor: nat, limit: int, want: Expectation): Page {
    Conclude(db, want, 
      Walk(env, db, key, Start(db, key, cursor),
          After(db.ledger, cursor)[..PageSize(|After(db.ledger, cursor)|, limit)]))
  }

  /** The audit command: follow the pages and add up their counts. */
  function AuditPages(env: Instance, db: Db, key: PublicKey, cursor: nat, limit: int, want: Expectation): Report
    decreases Latest(db.ledger) - cursor
  {
    match AuditPage(env, db, key, cursor, limit, want)
    case Rejected(finding) => Failed(finding)
    case Verified(entries, verified, unverifiable, last, complete, next) =>
      if complete then Passed(entries, verified, unverifiable)
      else if next <= cursor then Stuck
      else
        match AuditPages(env, db, key, next, limit, want)
        case Passed(e, v, u) => Passed(entries + e, verified + v, unverifiable + u)
        case other => other
  }

  // ---------------------------------------------------------------- the whole ledger at once

  function WholeAudit(env: Instance, db: Db, key: PublicKey, want: Expectation): Report {
    var t := Walk(env, db, key, Origin(0, ""), After(db.ledger, 0));
    if t.finding.Some? then Failed(t.finding.value)
    else if FinalFinding(db, want).Some? then Failed(FinalFinding(db, want).value)
    else Passed(t.entries, t.verified, t.unverifiable)
  }

  /** Everything a passing audit establishes about one row. */
  ghost predicate LinkHolds(env: Instance, db: Db, key: PublicKey, rows: seq<Entry>, i: int)
    requires 0 <= i < |rows|
  {
    var e := rows[i];
    && e.sequence == i + 1
    && e.prevHash == (if i == 0 then "" else rows[i - 1].entryHash)
    && IsHash(e.entryHash)
    && e.keyId == key.id
    && key.verify(e.entryHash, e.signature)
    && e.batchId > 0
    && (e.batchId in db.batches ==>
          e.entryHash == LedgerDigest(env.sha, e.prevHash, env.encode(Payload(db, e.batchId))))
  }

  /** The metadata head is the hash of the last entry; without a sequence there is none. */
  ghost predicate HeadStored(db: Db) {
    var n := |db.ledger|;
    db.head == if n == 0 || db.ledger[n - 1].sequence == 0 then "" else db.ledger[n - 1].entryHash
  }

  /** The ledger reaches the checkpoint's sequence and, when a hash is asked for, an entry
      with that sequence carries it. */
  ghost predicate CheckpointKept(db: Db, want: Expectation) {
    want.minSequence == 0
    || (&& db.ledger != [] && want.minSequence <= db.ledger[|db.ledger| - 1].sequence
        && (want.head.Some? ==>
              exists e | e in db.ledger :: e.sequence == want.minSequence && e.entryHash == want.head.value))
  }

  /** The chain predicate: contiguous, linked, signed, bound to the stored rows, ending
      in the stored head and holding the expected checkpoint. */
  ghost predicate ChainHolds(env: Instance, db: Db, key: PublicKey, want: Expectation) {
    var rows := After(db.ledger, 0);
    && (forall i | 0 <= i < |rows| :: LinkHolds(env, db, key, rows, i))
    && HeadStored(db) && CheckpointKept(db, want)
  }

  function CountMissing(db: Db, rows: seq<Entry>): nat {
    if rows == [] then 0 else (if rows[0].batchId in db.batches then 0 else 1) + CountMissing(db, rows[1..])
  }

  // ---------------------------------------------------------------- lemmas

  /** A walk can be interrupted anywhere and continued from its totals. */
  lemma {:induction false} WalkConcat(env: Instance, db: Db, key: PublicKey, t: Tally, a: seq<Entry>, b: seq<Entry>)
    ensures Walk(env, db, key, t, a + b) == Walk(env, db, key, Walk(env, db, key, t, a), b)
    decreases |a|
  {
    if a == [] {
      assert a + b == b;
    } else if t.finding.None? {
      assert (a + b)[1..] == a[1..] + b;
      WalkConcat(env, db, key, WalkOne(env, db, key, t, a[0]), a[1..], b);
    }
  }

  /** Totals only ever add: a page started at zero counts exactly its own entries. */
  lemma {:induction false} WalkShift(env: Instance, db: Db, key: PublicKey, t: Tally, base: Tally, entries: seq<Entry>)
    requires t.finding.None? && base == Tally(0, 0, 0, t.expected, t.previous, None)
    ensures var r, s := Walk(env, db, key, t, entries), Walk(env, db, key, base, entries);
      && r.finding == s.finding && r.expected == s.expected && r.previous == s.previous
      && r.entries == t.entries + s.entries && r.verified == t.verified + s.verified
          && r.unverifiable == t.unverifiable + s.unverifiable
    decreases |entries|
  {
    if entries != [] && CheckEntry(env, db, key, entries[0], t.expected, t.previous).None? {
      var t1, b1 := WalkOne(env, db, key, t, entries[0]), WalkOne(env, db, key, base, entries[0]);
      var zero := Tally(0, 0, 0, t1.expected, t1.previous, None);
      WalkShift(env, db, key, t1, zero, entries[1..]);
      WalkShift(env, db, key, b1, zero, entries[1..]);
    }
  }

  /** A finished walk has counted every entry once and sits on the last one. */
  lemma {:induction false} WalkPassed(env: Instance, db: Db, key: PublicKey, t: Tally, entries: seq<Entry>)
    requires t.finding.None? && Walk(env, db, key, t, entries).finding.None?
    ensures var r := Walk(env, db, key, t, entries);
      && r.entries == t.entries + |entries| && r.verified == t.verified + |entries|
      && r.unverifiable == t.unverifiable + CountMissing(db, entries)
      && r.expected == t.expected + |entries|
      && r.previous == (if entries == [] then t.previous else entries[|entries| - 1].entryHash)
    ensures forall i | 0 <= i < |entries| :: entries[i].sequence == t.expected + i
    ensures forall i | 0 <= i < |entries| :: ValidateEntry(entries[i], key, entries[i].sequence == 1).None?
    decreases |entries|
  {
    if entries != [] {
      WalkPassed(env, db, key, WalkOne(env, db, key, t, entries[0]), entries[1..]);
      forall i | 0 <= i < |entries|
        ensures entries[i].sequence == t.expected + i && ValidateEntry(entries[i], key, entries[i].sequence == 1).None?
      {
        if i > 0 { assert entries[i] == entries[1..][i - 1]; }
      }
    }
  }

  lemma {:induction false} AfterIsSuffix(ledger: seq<Entry>, cursor: int)
    requires Sorted(ledger)
    ensures forall e | e in After(ledger, cursor) :: e.sequence > cursor
    ensures forall e | e in ledger && e.sequence > cursor :: e in After(ledger, cursor)
    decreases |ledger|
  {
    if ledger != [] {
      if ledger[0].sequence > cursor {
        forall e | e in ledger ensures e.sequence > cursor { var i :| 0 <= i < |ledger| && ledger[i] == e; }
      } else {
        AfterIsSuffix(ledger[1..], cursor);
      }
    }
  }

  /** Rows above a row that is present are exactly the rows behind it. */
  lemma {:induction false} AfterAt(ledger: seq<Entry>, i: nat)
    requires Sorted(ledger) && i < |ledger|
    ensures After(ledger, ledger[i].sequence) == ledger[i + 1..]
    decreases |ledger|
  {
    if i == 0 {
      if |ledger| > 1 { assert ledger[1..][0].sequence > ledger[0].sequence; }
    } else {
      AfterAt(ledger[1..], i - 1);
      assert ledger[1..][i - 1] == ledger[i] && ledger[1..][i..] == ledger[i + 1..];
    }
  }

  /** A sorted ledger has at most one row at a sequence. */
  lemma EntryAtRow(ledger: seq<Entry>, i: nat)
    requires Sorted(ledger) && i < |ledger|
    ensures EntryAt(ledger, ledger[i].sequence) == Some(ledger[i])
  {
    var found := EntryAt(ledger, ledger[i].sequence);
    assert ledger[i] in ledger;
    var j :| 0 <= j < |ledger| && ledger[j] == found.value;
  }

  ghost function Added(t: Tally, report: Report): Report {
    match report
    case Passed(e, v, u) => Passed(t.entries + e, t.verified + v, t.unverifiable + u)
    case other => other
  }

  function HashBefore(rows: seq<Entry>, k: nat): string
    requires k <= |rows|
  {
    if k == 0 then "" else rows[k - 1].entryHash
  }

  /** The k-th row is where a resumed page finds its anchor. */
  lemma AnchorRow(ledger: seq<Entry>, rows: seq<Entry>, k: nat)
    requires Sorted(ledger) && rows == After(ledger, 0) && 0 < k <= |rows| && rows[k - 1].sequence == k
    ensures After(ledger, k) == rows[k..] && EntryAt(ledger, k) == Some(rows[k - 1])
  {
    hide EntryAt, After, Sorted;
    var d := |ledger| - |rows|;
    var i := d + k - 1;
    assert rows == ledger[d..] && ledger[i] == rows[k - 1];
    SuffixOfSuffix(ledger, d, k);
    AfterAt(ledger, i);
    EntryAtRow(ledger, i);
  }

  lemma SuffixOfSuffix(ledger: seq<Entry>, d: nat, k: nat)
    requires d + k <= |ledger|
    ensures ledger[d..][k..] == ledger[d + k..]
  {
  }

  /** A page that resumes after k verified rows walks the rows behind them. */
  lemma PageFrom(env: Instance, db: Db, key: PublicKey, rows: seq<Entry>, k: nat, limit: int, want: Expectation)
    requires Sorted(db.ledger) && rows == After(db.ledger, 0) && k <= |rows|
    requires k > 0 ==> rows[k - 1].sequence == k && ValidateEntry(rows[k - 1], key, k == 1).None?
    ensures AuditPage(env, db, key, k, limit, want)
         == Conclude(db, want, Walk(env, db, key, Origin(k, HashBefore(rows, k)),
             rows[k..k + PageSize(|rows| - k, limit)]))
  {
    hide CheckEntry, Walk, Conclude, After, EntryAt, Sorted, ValidateEntry;
    var n := PageSize(|rows| - k, limit);
    if k > 0 { AnchorRow(db.ledger, rows, k); } else { assert rows[0..] == rows; }
    assert rows[k..][..n] == rows[k..k + n];
  }

  /** The walk of one page, from its own origin, seen from the walk it continues. */
  lemma PageWalk(env: Instance, db: Db, key: PublicKey, rows: seq<Entry>, t: Tally, k: nat, page: seq<Entry>)
    requires k + |page| <= |rows| && page == rows[k..k + |page|]
    requires t == Walk(env, db, key, Origin(0, ""), rows[..k]) && t.finding.None?
    ensures var w, own := Walk(env, db, key, t, page), Walk(env, db, key, Origin(k, HashBefore(rows, k)), page);
      && w.finding == own.finding
      && (w.finding.None? ==>
            && w.entries == t.entries + |page| && w.verified == t.verified + |page|
            && w.unverifiable == t.unverifiable + CountMissing(db, page)
            && own == Tally(|page|, |page|, CountMissing(db, page), k + |page| + 1, w.previous, None))
      && (w.finding.None? && k + |page| > 0 ==> rows[k + |page| - 1].sequence == k + |page|)
  {
    hide Walk, CheckEntry, ValidateEntry, CountMissing;
    AnchorVerified(env, db, key, rows, k);
    WalkPassed(env, db, key, Origin(0, ""), rows[..k]);
    WalkShift(env, db, key, t, Origin(k, HashBefore(rows, k)), page);
    if Walk(env, db, key, t, page).finding.None? {
      WalkPassed(env, db, key, t, page);
      WalkPassed(env, db, key, Origin(k, HashBefore(rows, k)), page);
    }
  }

  lemma AnchorVerified(env: Instance, db: Db, key: PublicKey, rows: seq<Entry>, k: nat)
    requires k <= |rows| && Walk(env, db, key, Origin(0, ""), rows[..k]).finding.None?
    ensures k > 0 ==> rows[k - 1].sequence == k && ValidateEntry(rows[k - 1], key, k == 1).None?
  {
    WalkPassed(env, db, key, Origin(0, ""), rows[..k]);
    if k > 0 { assert rows[..k][k - 1] == rows[k - 1]; }
  }

  lemma PageConcludes(db: Db, want: Expectation, rows: seq<Entry>, n: nat, t: Tally)
    requires Sorted(db.ledger) && rows == After(db.ledger, 0) && n <= |rows|
    requires t.finding.None? && n > 0 ==> rows[n - 1].sequence == n
    requires t.finding.None? ==> t.expected == n + 1
    ensures Conclude(db, want, t) ==
      if t.finding.Some? then Rejected(t.finding.value)
      else if n < |rows| then Verified(t.entries, t.verified, t.unverifiable, n, false, n)
      else if FinalFinding(db, want).Some? then Rejected(FinalFinding(db, want).value)
      else Verified(t.entries, t.verified, t.unverifiable, n, true, 0)
  {
    if t.finding.None? { LatestReached(db, rows, n); }
  }

  /** What one page reports, in terms of the whole walk that it continues. */
  lemma PageOutcome(env: Instance, db: Db, key: PublicKey, rows: seq<Entry>, t: Tally, k: nat, n: nat, limit: int,
          want: Expectation)
    requires Sorted(db.ledger) && rows == After(db.ledger, 0) && k <= |rows| && n == PageSize(|rows| - k, limit)
    requires t == Walk(env, db, key, Origin(0, ""), rows[..k]) && t.finding.None?
    ensures var page := rows[k..k + n];
      var w := Walk(env, db, key, t, page);
      && (w.finding.Some? ==> AuditPage(env, db, key, k, limit, want) == Rejected(w.finding.value))
      && (w.finding.None? ==>
            AuditPage(env, db, key, k, limit, want) ==
              if k + n < |rows| then Verified(n, n, CountMissing(db, page), k + n, false, k + n)
              else if FinalFinding(db, want).Some? then Rejected(FinalFinding(db, want).value)
              else Verified(n, n, CountMissing(db, page), k + n, true, 0))
  {
    hide CheckEntry, Walk, ValidateEntry, CountMissing, FinalFinding, AuditPage, After, HashBefore, Conclude;
    var page := rows[k..k + n];
    AnchorVerified(env, db, key, rows, k);
    PageFrom(env, db, key, rows, k, limit, want);
    PageWalk(env, db, key, rows, t, k, page);
    var own := Walk(env, db, key, Origin(k, HashBefore(rows, k)), page);
    PageConcludes(db, want, rows, k + n, own);
  }

  /** Continuing from a cursor that the walk has reached gives the rest of the walk. */
  lemma {:induction false} PagesContinue(env: Instance, db: Db, key: PublicKey, rows: seq<Entry>, t: Tally, k: nat,
          limit: int, want: Expectation)
    requires Sorted(db.ledger) && rows == After(db.ledger, 0) && k <= |rows|
    requires t == Walk(env, db, key, Origin(0, ""), rows[..k]) && t.finding.None?
    ensures Added(t, AuditPages(env, db, key, k, limit, want)) == WholeAudit(env, db, key, want)
    decreases |rows| - k
  {
    hide CheckEntry, Walk, CountMissing, FinalFinding, AuditPage, After, HashBefore;
    var n := PageSize(|rows| - k, limit);
    var page := rows[k..k + n];
    PageOutcome(env, db, key, rows, t, k, n, limit, want);
    WalkSplit(env, db, key, rows, k, n);
    PageWalk(env, db, key, rows, t, k, page);
    var w := Walk(env, db, key, t, page);
    if w.finding.None? && k + n < |rows| {
      PagesContinue(env, db, key, rows, w, k + n, limit, want);
    }
  }

  /** Walking k rows, then a page of n, then the rest is walking them all. */
  lemma WalkSplit(env: Instance, db: Db, key: PublicKey, rows: seq<Entry>, k: nat, n: nat)
    requires k + n <= |rows|
    ensures var t := Walk(env, db, key, Origin(0, ""), rows[..k]);
      && Walk(env, db, key, Origin(0, ""), rows[..k + n]) == Walk(env, db, key, t, rows[k..k + n])
      && (Walk(env, db, key, t, rows[k..k + n]).finding.Some? || k + n == |rows| ==>
            Walk(env, db, key, Origin(0, ""), rows) == Walk(env, db, key, t, rows[k..k + n]))
  {
    assert rows[..k + n] == rows[..k] + rows[k..k + n];
    assert rows == rows[..k + n] + rows[k + n..];
    WalkConcat(env, db, key, Origin(0, ""), rows[..k], rows[k..k + n]);
    WalkConcat(env, db, key, Origin(0, ""), rows[..k + n], rows[k + n..]);
  }

  /** The walk has reached the latest sequence exactly when no row is left. */
  lemma LatestReached(db: Db, rows: seq<Entry>, n: nat)
    requires Sorted(db.ledger) && rows == After(db.ledger, 0) && n <= |rows|
    requires n > 0 ==> rows[n - 1].sequence == n
    ensures n < Latest(db.ledger) <==> n < |rows|
  {
    AfterIsSuffix(db.ledger, 0);
    if rows != [] {
      var last := rows[|rows| - 1];
      assert last == db.ledger[|db.ledger| - 1] && last in rows;
      if 0 < n < |rows| {
        assert rows[n - 1] == db.ledger[|db.ledger| - |rows| + n - 1];
      }
    } else if db.ledger != [] {
      assert db.ledger[|db.ledger| - 1] in db.ledger;
    }
  }

  /** Paged audit equals whole audit: same verdict, same first finding, same counts,
      for every stored ledger and every page size. */
  lemma PagedEqualsWhole(env: Instance, db: Db, key: PublicKey, limit: int, want: Expectation)
    requires Sorted(db.ledger)
    ensures AuditPages(env, db, key, 0, limit, want) == WholeAudit(env, db, key, want)
  {
    assert After(db.ledger, 0)[..0] == [];
    PagesContinue(env, db, key, After(db.ledger, 0), Origin(0, ""), 0, limit, want);
  }

  lemma StartPassed(db: Db, key: PublicKey, cursor: nat)
    ensures Start(db, key, cursor).finding.None?
        ==> Start(db, key, cursor) == Origin(cursor, Start(db, key, cursor).previous)
  {
    hide ValidateEntry, EntryAt;
  }

  /** A page that is not the last one moves the cursor strictly towards the latest entry. */
  lemma PageAdvances(env: Instance, db: Db, key: PublicKey, cursor: nat, limit: int, want: Expectation)
    requires Sorted(db.ledger)
    requires AuditPage(env, db, key, cursor, limit, want).Verified?
        && !AuditPage(env, db, key, cursor, limit, want).complete
    ensures cursor < AuditPage(env, db, key, cursor, limit, want).nextCursor < Latest(db.ledger)
  {
    hide Start, Walk, After, FinalFinding, CheckEntry, ValidateEntry, CountMissing, Latest;
    var start := Start(db, key, cursor);
    var page := After(db.ledger, cursor)[..PageSize(|After(db.ledger, cursor)|, limit)];
    StartPassed(db, key, cursor);
    WalkStays(env, db, key, start, page);
    if start.finding.None? {
      WalkPassed(env, db, key, start, page);
      SomeAfter(db.ledger, cursor);
    }
  }

  lemma WalkStays(env: Instance, db: Db, key: PublicKey, t: Tally, entries: seq<Entry>)
    ensures t.finding.Some? ==> Walk(env, db, key, t, entries) == t
  {
  }

  /** While the latest sequence is above the cursor there is a row to read. */
  lemma SomeAfter(ledger: seq<Entry>, cursor: nat)
    requires Sorted(ledger)
    ensures cursor < Latest(ledger) ==> After(ledger, cursor) != []
  {
    AfterIsSuffix(ledger, cursor);
    if cursor < Latest(ledger) { assert ledger[|ledger| - 1] in ledger; }
  }

  lemma CheckIsLink(env: Instance, db: Db, key: PublicKey, rows: seq<Entry>, i: nat)
    requires i < |rows|
    requires i > 0 ==> IsHash(rows[i - 1].entryHash)
    ensures LinkHolds(env, db, key, rows, i) <==> CheckEntry(env, db, key, rows[i], i + 1, HashBefore(rows, i)).None?
  {
  }

  lemma {:induction false} WalkIsLinks(env: Instance, db: Db, key: PublicKey, rows: seq<Entry>, k: nat)
    requires k <= |rows|
    ensures Walk(env, db, key, Origin(0, ""), rows[..k]).finding.None?
        <==> forall i | 0 <= i < k :: LinkHolds(env, db, key, rows, i)
    decreases k
  {
    if k > 0 {
      var before := rows[..k - 1];
      WalkIsLinks(env, db, key, rows, k - 1);
      assert rows[..k] == before + [rows[k - 1]];
      WalkConcat(env, db, key, Origin(0, ""), before, [rows[k - 1]]);
      var t := Walk(env, db, key, Origin(0, ""), before);
      if t.finding.None? {
        WalkPassed(env, db, key, Origin(0, ""), before);
        if k > 1 { assert LinkHolds(env, db, key, rows, k - 2); }
        CheckIsLink(env, db, key, rows, k - 1);
        WalkSingle(env, db, key, t, rows[k - 1]);
      }
    }
  }

  lemma WalkSingle(env: Instance, db: Db, key: PublicKey, t: Tally, e: Entry)
    requires t.finding.None?
    ensures Walk(env, db, key, t, [e]) == WalkOne(env, db, key, t, e)
  {
  }

  /** Entries with a positive sequence are rows, each at its own place. */
  lemma RowAt(ledger: seq<Entry>, rows: seq<Entry>, e: Entry)
    requires rows == After(ledger, 0) && forall i | 0 <= i < |rows| :: rows[i].sequence == i + 1
    requires e in ledger && e.sequence > 0
    ensures e.sequence <= |rows| && e == rows[e.sequence - 1]
  {
    hide After;
    var skipped := |ledger| - |rows|;
    var i :| 0 <= i < |ledger| && ledger[i] == e;
    assert rows == ledger[skipped..] && i >= skipped;
    var k := i - skipped;
    assert rows[k] == e && rows[k].sequence == k + 1;
  }

  lemma CheckpointIsHeld(db: Db, want: Expectation, rows: seq<Entry>)
    requires rows == After(db.ledger, 0) && forall i | 0 <= i < |rows| :: rows[i].sequence == i + 1
    ensures CheckpointFinding(db, want).None? <==> CheckpointKept(db, want)
  {
    hide After, EntryAt;
    if want.minSequence > 0 {
      forall e | e in db.ledger && e.sequence == want.minSequence
        ensures want.minSequence <= |rows| && e == rows[want.minSequence - 1]
      {
        RowAt(db.ledger, rows, e);
      }
    }
  }

  /** Behind the last row of a linked chain, nothing is found exactly when the head is
      stored and the checkpoint kept. */
  lemma FinalIsHeld(db: Db, want: Expectation, rows: seq<Entry>)
    requires rows == After(db.ledger, 0) && forall i | 0 <= i < |rows| :: rows[i].sequence == i + 1
    ensures FinalFinding(db, want).None? <==> HeadStored(db) && CheckpointKept(db, want)
    ensures HeadFinding(db).None? <==> HeadStored(db)
  {
    hide After, CheckpointFinding, CheckpointKept;
    CheckpointIsHeld(db, want, rows);
  }

  /** A page that completes the audit has found the head stored and the checkpoint kept. */
  lemma LastPageChecks(env: Instance, db: Db, key: PublicKey, cursor: nat, limit: int, want: Expectation)
    requires AuditPage(env, db, key, cursor, limit, want).Verified?
    requires AuditPage(env, db, key, cursor, limit, want).complete
    ensures HeadStored(db) && CheckpointKept(db, want)
  {
    hide After, Walk, Start;
  }

  /** The audit passes exactly when the chain predicate holds, and then it has counted
      every entry once and every pruned payload once. */
  lemma AuditIsChain(env: Instance, db: Db, key: PublicKey, want: Expectation)
    ensures WholeAudit(env, db, key, want).Passed? <==> ChainHolds(env, db, key, want)
    ensures ChainHolds(env, db, key, want) ==>
      WholeAudit(env, db, key, want) ==
          Passed(|After(db.ledger, 0)|, |After(db.ledger, 0)|, CountMissing(db, After(db.ledger, 0)))
  {
    var rows := After(db.ledger, 0);
    assert rows[..|rows|] == rows;
    hide After, FinalFinding, HeadStored, CheckpointKept, CheckEntry, LedgerDigest, Payload;
    WalkIsLinks(env, db, key, rows, |rows|);
    if Walk(env, db, key, Origin(0, ""), rows).finding.None? {
      WalkPassed(env, db, key, Origin(0, ""), rows);
      FinalIsHeld(db, want, rows);
    }
  }

  // ---------------------------------------------------------------- what a failing audit names

  /** The named check does fail at row i, which continues from `previous`. */
  ghost predicate Fails(env: Instance, db: Db, key: PublicKey, rows: seq<Entry>, i: int, check: Check)
    requires 0 <= i < |rows|
  {
    var e, previous := rows[i], if i == 0 then "" else rows[i - 1].entryHash;
    match check
    case Continuity => e.sequence != i + 1
    case PredecessorHash => i > 0 && e.prevHash != previous
    case GenesisPredecessor => i == 0 && e.prevHash != ""
    case Ledger(EntryHash) => !IsHash(e.entryHash)
    case Ledger(KeyId) => e.keyId != key.id
    case Ledger(Signature) => !key.verify(e.entryHash, e.signature)
    case BatchReference => e.batchId <= 0
    case PayloadDigest =>
      && e.batchId in db.batches
      && LedgerDigest(env.sha, e.prevHash, env.encode(Payload(db, e.batchId))) != e.entryHash
    case _ => false
  }

  lemma CheckFails(env: Instance, db: Db, key: PublicKey, rows: seq<Entry>, i: nat)
    requires i < |rows| && (i > 0 ==> IsHash(rows[i - 1].entryHash))
    requires CheckEntry(env, db, key, rows[i], i + 1, HashBefore(rows, i)).Some?
    ensures Fails(env, db, key, rows, i, CheckEntry(env, db, key, rows[i], i + 1, HashBefore(rows, i)).value)
  {
    hide LedgerDigest, Payload;
  }

  /** A walk that fails stops at the first row that does not hold, and names a check that
      this row fails. */
  lemma {:induction false} WalkNamesFirst(env: Instance, db: Db, key: PublicKey, rows: seq<Entry>, k: nat)
    returns (i: nat)
    requires k <= |rows| && Walk(env, db, key, Origin(0, ""), rows[..k]).finding.Some?
    ensures i < k && (forall j | 0 <= j < i :: LinkHolds(env, db, key, rows, j)) && !LinkHolds(env, db, key, rows, i)
    ensures var f := Walk(env, db, key, Origin(0, ""), rows[..k]).finding.value;
      f.sequence == rows[i].sequence && Fails(env, db, key, rows, i, f.check)
    decreases k
  {
    hide CheckEntry, LedgerDigest, Payload;
    var n := k - 1;
    var before := rows[..n];
    assert rows[..k] == before + [rows[n]];
    WalkConcat(env, db, key, Origin(0, ""), before, [rows[n]]);
    var t := Walk(env, db, key, Origin(0, ""), before);
    if t.finding.Some? {
      i := WalkNamesFirst(env, db, key, rows, n);
      WalkStays(env, db, key, t, [rows[n]]);
    } else {
      i := n;
      WalkIsLinks(env, db, key, rows, n);
      WalkPassed(env, db, key, Origin(0, ""), before);
      WalkSingle(env, db, key, t, rows[n]);
      if n > 0 { assert LinkHolds(env, db, key, rows, n - 1); }
      CheckIsLink(env, db, key, rows, n);
      CheckFails(env, db, key, rows, n);
    }
  }

  /** A failing audit names the first entry that does not hold and a check that it fails;
      when all entries hold, it names the head if that is not stored, and otherwise the
      checkpoint that is not kept. */
  lemma FailureIsFirst(env: Instance, db: Db, key: PublicKey, want: Expectation) returns (i: nat)
    requires WholeAudit(env, db, key, want).Failed?
    ensures var rows, f := After(db.ledger, 0), WholeAudit(env, db, key, want).failure;
      && i <= |rows| && (forall j | 0 <= j < i :: LinkHolds(env, db, key, rows, j))
      && (i < |rows| ==>
            && !LinkHolds(env, db, key, rows, i)
            && f.sequence == rows[i].sequence && Fails(env, db, key, rows, i, f.check))
      && (i == |rows| ==>
            && (f.check == StoredHead <==> !HeadStored(db))
            && (f.check != StoredHead ==> !CheckpointKept(db, want) && f.check in {CheckpointLength, CheckpointHead}))
  {
    hide After, CheckEntry, LinkHolds, Fails;
    var rows := After(db.ledger, 0);
    assert rows[..|rows|] == rows;
    WalkIsLinks(env, db, key, rows, |rows|);
    if Walk(env, db, key, Origin(0, ""), rows).finding.Some? {
      i := WalkNamesFirst(env, db, key, rows, |rows|);
    } else {
      i := |rows|;
      WalkPassed(env, db, key, Origin(0, ""), rows);
      FinalIsHeld(db, want, rows);
    }
  }
}
