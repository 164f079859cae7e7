/** What holds of the evidence ledger over whole runs: any interleaving of recorded
    polls, backfill chunks (stopped and rerun anywhere), retention and checkpoints.
 */
module LedgerRuns {
  import opened Crypto
  import opened LedgerSpec
  import opened LedgerInvariant
  import opened Audit

  lemma InvIsSorted(env: Instance, db: Db)
    requires Inv(env, db)
    ensures Sorted(db.ledger)
    ensures After(db.ledger, 0) == db.ledger
  {
    forall i | 0 <= i < |db.ledger| ensures db.ledger[i].sequence == i + 1 { assert EntryOk(env, db.ledger, i); }
  }

  /** The head and every checkpoint that was ever sent are where the audit looks. */
  lemma InvPassesFinal(env: Instance, db: Db, want: Expectation)
    requires Inv(env, db)
    requires want.minSequence == 0 || (want.head.Some? && exists i ::
        0 <= i < |db.sent| && db.sent[i] == Checkpoint(want.minSequence, want.head.value, db.sent[i].sentAt))
    ensures HeadStored(db) && CheckpointKept(db, want)
  {
    hide Bound, IdsBelow;
    if db.ledger != [] { assert EntryOk(env, db.ledger, |db.ledger| - 1); }
    if want.minSequence != 0 {
      var i :| 0 <= i < |db.sent| && db.sent[i] == Checkpoint(want.minSequence, want.head.value, db.sent[i].sentAt);
      assert AnchoredAt(db.ledger, db.sent[i]);
      assert db.ledger[want.minSequence - 1] in db.ledger;
      assert EntryOk(env, db.ledger, want.minSequence - 1);
    }
  }

  /** The invariant is exactly strong enough for the audit. */
  lemma InvPassesAudit(env: Instance, db: Db, want: Expectation)
    requires Sound(env) && Inv(env, db) && HeadStored(db) && CheckpointKept(db, want)
    ensures ChainHolds(env, db, env.key, want)
  {
    hide LedgerDigest, Payload, HeadStored, CheckpointKept, After, IdsBelow, Anchored;
    InvIsSorted(env, db);
    forall i | 0 <= i < |db.ledger| ensures LinkHolds(env, db, env.key, db.ledger, i) {
      assert EntryOk(env, db.ledger, i) && Bound(env, db, db.ledger[i]);
    }
  }

  /** In every state that any run reaches from a database without a ledger, the audit
      command passes with every page size, has counted every entry, and accepts every
      checkpoint sent so far. */
  lemma AuditAcceptsEveryRun(env: Instance, start: Db, steps: seq<Step>, limit: int, sent: nat)
    requires Sound(env) && Fresh(start)
    ensures var db := Run(env, start, steps);
      var want := if sent < |db.sent| then
          Expectation(if db.sent[sent].sequence > 0 then db.sent[sent].sequence else 0, Some(db.sent[sent].head))
          else Expectation(0, None);
      && AuditPages(env, db, env.key, 0, limit, want) == Passed(|db.ledger|, |db.ledger|, CountMissing(db, db.ledger))
      && (sent < |db.sent| ==> want.minSequence == db.sent[sent].sequence > 0)
  {
    hide AuditPages, WholeAudit, ChainHolds, CountMissing, Apply;
    var db := Run(env, start, steps);
    RunKeeps(env, start, steps);
    if sent < |db.sent| { assert AnchoredAt(db.ledger, db.sent[sent]); }
    var want := if sent < |db.sent| then Expectation(db.sent[sent].sequence, Some(db.sent[sent].head))
        else Expectation(0, None);
    InvIsSorted(env, db);
    InvPassesFinal(env, db, want);
    InvPassesAudit(env, db, want);
    PagedEqualsWhole(env, db, env.key, limit, want);
    AuditIsChain(env, db, env.key, want);
  }

  lemma {:induction false} RunSplits(env: Instance, db: Db, a: seq<Step>, b: seq<Step>)
    ensures Run(env, db, a + b) == Run(env, Run(env, db, a), b)
    decreases |a|
  {
    if a == [] {
      assert a + b == b;
    } else {
      assert (a + b)[1..] == a[1..] + b;
      RunSplits(env, Apply(env, db, a[0]), a[1..], b);
    }
  }

  /** A batch ID is never assigned twice: what has left the table stays away. */
  lemma StepNeverReuses(env: Instance, db: Db, step: Step, id: int)
    requires Sound(env) && Inv(env, db) && id < db.nextBatch && id !in db.batches
    ensures id !in Apply(env, db, step).batches
    ensures db.nextBatch <= Apply(env, db, step).nextBatch
  {
    if step.BackfillChunk? {
      var ids := FirstIdsOf(db, step.cutoff);
      if ids != [] && AppendAll(env, db, ids).Some? { AppendAllKeeps(env, db, ids); }
    }
  }

  function FirstIdsOf(db: Db, cutoff: int): seq<int> {
    Sets.FirstIds(Eligible(db, cutoff), BACKFILL_CHUNK)
  }

  import Sets

  lemma StepGrows(env: Instance, db: Db, step: Step)
    requires Sound(env) && Inv(env, db)
    ensures db.nextBatch <= Apply(env, db, step).nextBatch
  {
    if step.BackfillChunk? {
      var ids := FirstIdsOf(db, step.cutoff);
      if ids != [] && AppendAll(env, db, ids).Some? { AppendAllKeeps(env, db, ids); }
    }
  }

  lemma {:induction false} RunKeepsPayload(env: Instance, db: Db, steps: seq<Step>, id: int)
    requires Sound(env) && Inv(env, db) && id < db.nextBatch
    requires id in Run(env, db, steps).batches
    ensures id in db.batches && Payload(Run(env, db, steps), id) == Payload(db, id)
    decreases |steps|
  {
    hide Apply, Payload;
    if steps != [] {
      StepKeeps(env, db, steps[0]);
      StepGrows(env, db, steps[0]);
      RunKeepsPayload(env, Apply(env, db, steps[0]), steps[1..], id);
      if id !in db.batches { StepNeverReuses(env, db, steps[0], id); }
      StepKeepsPayload(env, db, steps[0], id);
    }
  }

  /** Every entry ever signed stays in the ledger unchanged, and while its batch row is
      still stored the batch has exactly the events and trigger links it was signed
      with: the payload read at the end is the one read when the entry was first there. */
  lemma SignedContentKept(env: Instance, start: Db, before: seq<Step>, rest: seq<Step>, i: nat)
    requires Sound(env) && Fresh(start)
    requires i < |Run(env, start, before).ledger|
    ensures var then_, now := Run(env, start, before), Run(env, start, before + rest);
      && i < |now.ledger| && now.ledger[i] == then_.ledger[i]
      && (now.ledger[i].batchId in now.batches ==>
            && now.ledger[i].batchId in then_.batches
            && Payload(now, now.ledger[i].batchId) == Payload(then_, now.ledger[i].batchId)
            && now.ledger[i].entryHash == LedgerDigest(env.sha, now.ledger[i].prevHash,
                env.encode(Payload(then_, now.ledger[i].batchId))))
  {
    hide Apply, Payload, LedgerDigest;
    var db := Run(env, start, before);
    RunKeeps(env, start, before);
    RunSplits(env, start, before, rest);
    RunKeeps(env, db, rest);
    var now := Run(env, db, rest);
    assert Bound(env, now, now.ledger[i]);
    if now.ledger[i].batchId in now.batches { RunKeepsPayload(env, db, rest, now.ledger[i].batchId); }
  }

  /** Checkpoints of a run: strictly increasing sequences, each still anchored in the
      ledger, so that sending the next one never meets an integrity error. */
  lemma CheckpointsStayAnchored(env: Instance, start: Db, steps: seq<Step>, now: int, interval: int,
          destination: Destination)
    requires Sound(env) && Fresh(start)
    ensures var db := Run(env, start, steps);
      && (forall i | 0 <= i < |db.sent| ::
          EntryAt(db.ledger, db.sent[i].sequence).Some?
          && EntryAt(db.ledger, db.sent[i].sequence).value.entryHash == db.sent[i].head)
      && (forall i, j | 0 <= i < j < |db.sent| :: db.sent[i].sequence < db.sent[j].sequence)
      && CheckpointDecision(db, now, interval, destination) !in {LostAnchor, MovedAnchor}
  {
    hide CheckpointDecision;
    var db := Run(env, start, steps);
    RunKeeps(env, start, steps);
    AnchorNeverLost(env, db, now, interval, destination);
    forall i | 0 <= i < |db.sent|
      ensures EntryAt(db.ledger, db.sent[i].sequence).Some?
          && EntryAt(db.ledger, db.sent[i].sequence).value.entryHash == db.sent[i].head
    {
      assert AnchoredAt(db.ledger, db.sent[i]);
      EntryAtIndex(env, db.ledger, db.sent[i].sequence);
    }
  }

  // ---------------------------------------------------------------- when a checkpoint is sent

  /** The ledger has grown since the last checkpoint, if there was one, and the interval has
      passed since then; a clock that was set back counts as passed. */
  ghost predicate CheckpointDue(db: Db, now: int, interval: int) {
    && db.ledger != []
    && (db.lastCheckpoint.Some? ==>
          && db.lastCheckpoint.value.sequence < |db.ledger|
          && (now < db.lastCheckpoint.value.sentAt || now >= db.lastCheckpoint.value.sentAt + interval))
  }

  /** In every reachable state a checkpoint is sent if and only if one is due and the
      destination is set and active; without an active destination a due one is an error,
      and in every other case nothing happens. What is sent is the newest entry. */
  lemma CheckpointSentIff(env: Instance, db: Db, now: int, interval: int, destination: Destination)
    requires Inv(env, db)
    ensures CheckpointDecision(db, now, interval, destination) ==
      if destination == Off || !CheckpointDue(db, now, interval) then NotDue
      else if destination == Unavailable then NoDestination else Enqueued
    ensures Checkpointed(db, now, interval, destination) ==
      if destination == Ready && CheckpointDue(db, now, interval) then
        var sent := Checkpoint(|db.ledger|, db.ledger[|db.ledger| - 1].entryHash, now);
        db.(lastCheckpoint := Some(sent), sent := db.sent + [sent])
      else db
  {
    hide Bound, IdsBelow, EntryAt;
    AnchorNeverLost(env, db, now, interval, destination);
    if db.ledger != [] { NewestSequence(env, db); }
  }
}
