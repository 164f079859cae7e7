/** One entry hash pins the whole history behind it. */
module LedgerPrefix {
  import opened Crypto
  import opened LedgerSpec
  import opened LedgerInvariant
  import opened Audit

  /** Every row passes the audit and still has its payload. */
  ghost predicate FullyStored(env: Instance, db: Db, key: PublicKey) {
    && Sorted(db.ledger)
    && ChainHolds(env, db, key, Expectation(0, None))
    && CountMissing(db, After(db.ledger, 0)) == 0
  }

  lemma {:induction false} NoneMissing(db: Db, rows: seq<Entry>, i: nat)
    requires CountMissing(db, rows) == 0 && i < |rows|
    ensures rows[i].batchId in db.batches
    decreases i
  {
    if i > 0 { NoneMissing(db, rows[1..], i - 1); }
  }

  /** The text that was hashed for row i. */
  function HashedText(env: Instance, db: Db, rows: seq<Entry>, i: nat): string
    requires i < |rows| && rows[i].batchId in db.batches
  {
    Framed(rows[i].prevHash, env.encode(Payload(db, rows[i].batchId)))
  }

  ghost predicate HashesMeet(env: Instance, a: Db, b: Db, i: nat) {
    var p, q := After(a.ledger, 0), After(b.ledger, 0);
    && i < |p| && i < |q| && p[i].batchId in a.batches && q[i].batchId in b.batches
    && Collision(env.sha, HashedText(env, a, p, i), HashedText(env, b, q, i))
  }

  /** Equal hashes at one row: equal payloads and equal predecessors, or a collision. */
  lemma RowPinned(env: Instance, a: Db, b: Db, key: PublicKey, k: nat)
    requires Sound(env) && FullyStored(env, a, key) && FullyStored(env, b, key)
    requires k < |After(a.ledger, 0)| && k < |After(b.ledger, 0)|
    requires After(a.ledger, 0)[k].entryHash == After(b.ledger, 0)[k].entryHash
    ensures After(a.ledger, 0)[k].batchId in a.batches && After(b.ledger, 0)[k].batchId in b.batches
    ensures HashesMeet(env, a, b, k)
         || (&& Payload(a, After(a.ledger, 0)[k].batchId) == Payload(b, After(b.ledger, 0)[k].batchId)
             && (k > 0 ==> After(a.ledger, 0)[k - 1].entryHash == After(b.ledger, 0)[k - 1].entryHash))
  {
    hide Payload, After, Framed, HeadStored, CheckpointKept, CountMissing, Sorted;
    var p, q := After(a.ledger, 0), After(b.ledger, 0);
    NoneMissing(a, p, k);
    NoneMissing(b, q, k);
    assert LinkHolds(env, a, key, p, k) && LinkHolds(env, b, key, q, k);
    if k > 0 { assert LinkHolds(env, a, key, p, k - 1) && LinkHolds(env, b, key, q, k - 1); }
    var x, y := env.encode(Payload(a, p[k].batchId)), env.encode(Payload(b, q[k].batchId));
    DigestPinsBoth(env.sha, p[k].prevHash, x, q[k].prevHash, y);
    assert env.decode(x) == Some(Payload(a, p[k].batchId)) && env.decode(y) == Some(Payload(b, q[k].batchId));
  }

  /** Two audited ledgers whose hashes agree at one sequence hold the same payloads from
      the first sequence up to it, whatever wrote them; otherwise two of the hashed texts
      are an explicit collision of the hash function. */
  lemma {:induction false} HeadPinsPrefix(env: Instance, a: Db, b: Db, key: PublicKey, k: nat)
    requires Sound(env) && FullyStored(env, a, key) && FullyStored(env, b, key)
    requires k < |After(a.ledger, 0)| && k < |After(b.ledger, 0)|
    requires After(a.ledger, 0)[k].entryHash == After(b.ledger, 0)[k].entryHash
    ensures (exists i :: 0 <= i <= k && HashesMeet(env, a, b, i))
         || (forall i | 0 <= i <= k ::
              && After(a.ledger, 0)[i].batchId in a.batches && After(b.ledger, 0)[i].batchId in b.batches
              && After(a.ledger, 0)[i].entryHash == After(b.ledger, 0)[i].entryHash
              && Payload(a, After(a.ledger, 0)[i].batchId) == Payload(b, After(b.ledger, 0)[i].batchId))
    decreases k
  {
    hide Payload, After, FullyStored, HashesMeet;
    RowPinned(env, a, b, key, k);
    if !HashesMeet(env, a, b, k) && k > 0 { HeadPinsPrefix(env, a, b, key, k - 1); }
  }

  /** A checkpoint kept outside the database pins everything up to it: any two audits
      that accept it saw the same history. */
  lemma CheckpointPinsHistory(env: Instance, a: Db, b: Db, key: PublicKey, sequence: nat, head: string)
    requires Sound(env) && FullyStored(env, a, key) && FullyStored(env, b, key) && sequence > 0
    requires WholeAudit(env, a, key, Expectation(sequence, Some(head))).Passed?
    requires WholeAudit(env, b, key, Expectation(sequence, Some(head))).Passed?
    ensures sequence <= |After(a.ledger, 0)| && sequence <= |After(b.ledger, 0)|
    ensures (exists i :: 0 <= i < sequence && HashesMeet(env, a, b, i))
         || (forall i | 0 <= i < sequence ::
              && After(a.ledger, 0)[i].batchId in a.batches && After(b.ledger, 0)[i].batchId in b.batches
              && Payload(a, After(a.ledger, 0)[i].batchId) == Payload(b, After(b.ledger, 0)[i].batchId))
  {
    hide Payload, LedgerDigest, HashesMeet, WholeAudit;
    CheckpointRow(env, a, key, sequence, head);
    CheckpointRow(env, b, key, sequence, head);
    HeadPinsPrefix(env, a, b, key, sequence - 1);
  }

  lemma CheckpointRow(env: Instance, db: Db, key: PublicKey, sequence: nat, head: string)
    requires Sorted(db.ledger) && sequence > 0
    requires WholeAudit(env, db, key, Expectation(sequence, Some(head))).Passed?
    ensures sequence <= |After(db.ledger, 0)| && After(db.ledger, 0)[sequence - 1].entryHash == head
  {
    hide LinkHolds, WholeAudit, After, HeadStored;
    AuditIsChain(env, db, key, Expectation(sequence, Some(head)));
    var e :| e in db.ledger && e.sequence == sequence && e.entryHash == head;
    AfterIsSuffix(db.ledger, 0);
    SequenceIsIndex(env, db, key, e);
  }

  lemma SequenceIsIndex(env: Instance, db: Db, key: PublicKey, e: Entry)
    requires e in After(db.ledger, 0)
    requires forall i | 0 <= i < |After(db.ledger, 0)| :: LinkHolds(env, db, key, After(db.ledger, 0), i)
    ensures 1 <= e.sequence <= |After(db.ledger, 0)| && After(db.ledger, 0)[e.sequence - 1] == e
  {
    hide After, Payload, LedgerDigest;
    var rows := After(db.ledger, 0);
    var i :| 0 <= i < |rows| && rows[i] == e;
    assert LinkHolds(env, db, key, rows, i);
  }
}
