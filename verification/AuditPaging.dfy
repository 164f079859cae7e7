/** What one audit page establishes, from any cursor, said on the stored rows.
 */
module AuditPaging {
  import opened Crypto
  import opened LedgerSpec
  import opened Audit

  /** The entry a page continues from is well formed and signed. */
  ghost predicate AnchorOk(key: PublicKey, e: Entry) {
    && IsHash(e.entryHash) && e.keyId == key.id && key.verify(e.entryHash, e.signature)
    && (IsHash(e.prevHash) || (e.prevHash == "" && e.sequence == 1))
  }

  /** There is such an entry at the cursor; genesis needs none. */
  ghost predicate Anchors(db: Db, key: PublicKey, cursor: nat, previous: string) {
    if cursor == 0 then previous == ""
    else exists e | e in db.ledger :: e.sequence == cursor && e.entryHash == previous && AnchorOk(key, e)
  }

  /** Row i behind the cursor continues the row before it, is signed, and hashes from its
      batch while that is stored. */
  ghost predicate RowHolds(env: Instance, db: Db, key: PublicKey, cursor: nat, previous: string, rows: seq<Entry>,
                           i: int)
    requires 0 <= i < |rows|
  {
    var e := rows[i];
    && e.sequence == cursor + i + 1
    && e.prevHash == (if i == 0 then previous else rows[i - 1].entryHash)
    && IsHash(e.entryHash) && e.keyId == key.id && key.verify(e.entryHash, e.signature)
    && e.batchId > 0
    && (e.batchId in db.batches ==>
          e.entryHash == LedgerDigest(env.sha, e.prevHash, env.encode(Payload(db, e.batchId))))
  }

  lemma CheckIsRow(env: Instance, db: Db, key: PublicKey, cursor: nat, previous: string, rows: seq<Entry>, i: nat)
    requires i < |rows| && (cursor > 0 ==> IsHash(previous)) && (cursor == 0 ==> previous == "")
    requires i > 0 ==> IsHash(rows[i - 1].entryHash)
    ensures RowHolds(env, db, key, cursor, previous, rows, i) <==>
      CheckEntry(env, db, key, rows[i], cursor + i + 1, if i == 0 then previous else rows[i - 1].entryHash).None?
  {
    hide LedgerDigest, Payload;
  }

  lemma {:induction false} WalkIsRows(env: Instance, db: Db, key: PublicKey, cursor: nat, previous: string,
                                      rows: seq<Entry>, k: nat)
    requires k <= |rows| && (cursor > 0 ==> IsHash(previous)) && (cursor == 0 ==> previous == "")
    ensures Walk(env, db, key, Origin(cursor, previous), rows[..k]).finding.None? <==>
      forall i | 0 <= i < k :: RowHolds(env, db, key, cursor, previous, rows, i)
    decreases k
  {
    hide CheckEntry;
    if k > 0 {
      var before := rows[..k - 1];
      WalkIsRows(env, db, key, cursor, previous, rows, k - 1);
      assert rows[..k] == before + [rows[k - 1]];
      WalkConcat(env, db, key, Origin(cursor, previous), before, [rows[k - 1]]);
      var t := Walk(env, db, key, Origin(cursor, previous), before);
      if t.finding.None? {
        WalkPassed(env, db, key, Origin(cursor, previous), before);
        if k > 1 { assert RowHolds(env, db, key, cursor, previous, rows, k - 2); }
        CheckIsRow(env, db, key, cursor, previous, rows, k - 1);
        WalkSingle(env, db, key, t, rows[k - 1]);
      }
    }
  }

  lemma OneEntryAt(ledger: seq<Entry>, e: Entry)
    requires Sorted(ledger) && e in ledger
    ensures EntryAt(ledger, e.sequence) == Some(e)
  {
    var i :| 0 <= i < |ledger| && ledger[i] == e;
    EntryAtRow(ledger, i);
  }

  /** A page starts if and only if its anchor is there and well formed. When it is not, the
      page names the cursor and says whether an entry is missing. */
  lemma StartIff(db: Db, key: PublicKey, cursor: nat)
    requires Sorted(db.ledger)
    ensures var start := Start(db, key, cursor);
      && (start.finding.None? ==> start == Origin(cursor, start.previous) && Anchors(db, key, cursor, start.previous))
      && (start.finding.Some? ==>
            && (forall previous :: !Anchors(db, key, cursor, previous))
            && start.finding.value.sequence == cursor
            && (start.finding.value.check == CursorMissing <==> forall e | e in db.ledger :: e.sequence != cursor)
            && (start.finding.value.check != CursorMissing ==> start.finding.value.check.Cursor?))
  {
    hide Sorted, EntryAt;
    forall e | e in db.ledger ensures EntryAt(db.ledger, e.sequence) == Some(e) { OneEntryAt(db.ledger, e); }
  }

  /** The head and the checkpoint as a page looks for them. */
  lemma FinalIff(db: Db, want: Expectation)
    requires Sorted(db.ledger)
    ensures FinalFinding(db, want).None? <==> HeadStored(db) && CheckpointKept(db, want)
  {
    hide Sorted, EntryAt;
    forall e | e in db.ledger ensures EntryAt(db.ledger, e.sequence) == Some(e) { OneEntryAt(db.ledger, e); }
    if want.minSequence > 0 && db.ledger == [] { assert Latest(db.ledger) == 0; }
  }

  /** The rows one page reads: the next ones in order, as many as it may. */
  ghost predicate Reads(ledger: seq<Entry>, cursor: nat, limit: int, from: nat, rows: seq<Entry>, last: bool) {
    var most := if limit <= 0 then 128 else if limit > 1024 then 1024 else limit;
    && from + |rows| <= |ledger| && rows == ledger[from..from + |rows|]
    && (forall i | 0 <= i < from :: ledger[i].sequence <= cursor)
    && (forall i | from <= i < |ledger| :: ledger[i].sequence > cursor)
    && (last <==> from + |rows| == |ledger|)
    && |rows| <= most && (!last ==> |rows| == most)
  }

  lemma PageReads(ledger: seq<Entry>, cursor: nat, limit: int)
    requires Sorted(ledger)
    ensures var rest := After(ledger, cursor);
      var n := PageSize(|rest|, limit);
      Reads(ledger, cursor, limit, |ledger| - |rest|, rest[..n], n == |rest|)
  {
    hide After;
    var rest := After(ledger, cursor);
    var (from, n) := (|ledger| - |rest|, PageSize(|rest|, limit));
    AfterIsSuffix(ledger, cursor);
    assert rest[..n] == ledger[from..from + n];
    forall i | from <= i < |ledger| ensures ledger[i].sequence > cursor {
      assert ledger[i] == rest[i - from] && rest[i - from] in rest;
    }
  }

  /** One page, from any cursor: it verifies if and only if its anchor is sound, every row it
      reads holds, and, when it read the last one, the head is stored and the checkpoint
      kept. Then it has counted its rows, and continues after them exactly when rows are left. */
  lemma PageIff(env: Instance, db: Db, key: PublicKey, cursor: nat, limit: int, want: Expectation)
    returns (from: nat, rows: seq<Entry>, last: bool, previous: string)
    requires Sorted(db.ledger)
    ensures Reads(db.ledger, cursor, limit, from, rows, last)
    ensures var page := AuditPage(env, db, key, cursor, limit, want);
      && (page.Verified? <==>
            && Anchors(db, key, cursor, previous)
            && (forall i | 0 <= i < |rows| :: RowHolds(env, db, key, cursor, previous, rows, i))
            && (last ==> HeadStored(db) && CheckpointKept(db, want)))
      && (page.Verified? ==>
            page == Verified(|rows|, |rows|, CountMissing(db, rows), cursor + |rows|, last,
                             if last then 0 else cursor + |rows|))
  {
    hide Sorted, Walk, After, CheckEntry, ValidateEntry, CountMissing, Start, FinalFinding, Reads, HeadStored,
        CheckpointKept, RowHolds, Anchors;
    var rest := After(db.ledger, cursor);
    from, rows := |db.ledger| - |rest|, rest[..PageSize(|rest|, limit)];
    last := |rows| == |rest|;
    PageReads(db.ledger, cursor, limit);
    StartIff(db, key, cursor);
    FinalIff(db, want);
    var start := Start(db, key, cursor);
    previous := start.previous;
    if start.finding.Some? {
      WalkStays(env, db, key, start, rows);
    } else {
      AnchorHash(db, key, cursor, previous);
      WalkIsRows(env, db, key, cursor, previous, rows, |rows|);
      assert rows[..|rows|] == rows;
      if Walk(env, db, key, start, rows).finding.None? {
        WalkPassed(env, db, key, start, rows);
        LastIff(db, key, cursor, previous, from, rows, last, limit);
      }
    }
  }

  lemma AnchorHash(db: Db, key: PublicKey, cursor: nat, previous: string)
    requires Anchors(db, key, cursor, previous)
    ensures (cursor > 0 ==> IsHash(previous)) && (cursor == 0 ==> previous == "")
  {
  }

  /** Rows without a gap from the cursor reach the latest sequence exactly when none is left. */
  lemma LastIff(db: Db, key: PublicKey, cursor: nat, previous: string, from: nat, rows: seq<Entry>, last: bool,
                limit: int)
    requires Sorted(db.ledger) && Reads(db.ledger, cursor, limit, from, rows, last)
    requires Anchors(db, key, cursor, previous)
    requires forall i | 0 <= i < |rows| :: rows[i].sequence == cursor + i + 1
    ensures last <==> !(cursor + |rows| < Latest(db.ledger))
  {
    hide AnchorOk;
    var n := |db.ledger|;
    if last {
      if rows != [] { assert db.ledger[n - 1] == rows[|rows| - 1]; }
    } else {
      assert |rows| > 0 ==> rows[|rows| - 1] == db.ledger[from + |rows| - 1];
    }
  }
}
