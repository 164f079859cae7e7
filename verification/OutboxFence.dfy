/** Lease fencing over whole runs: the outbox rows against the log of what was leased,
    ended and requeued.
 */
module OutboxFence {
  import opened Crypto
  import opened Sets
  import opened OutboxSpec

  /** `Lease` is a claim, `End` a finish that took effect, `Again` a dead-letter retry. */
  datatype Record = Lease(id: int, token: int) | End(id: int, token: int, released: bool) | Again(ids: set<int>)

  function LeaseRecords(ids: seq<int>, token: int): (r: seq<Record>)
    ensures |r| == |ids| && forall i | 0 <= i < |r| :: r[i] == Lease(ids[i], token + i)
  {
    seq(|ids|, i requires 0 <= i < |ids| => Lease(ids[i], token + i))
  }

  function Records(box: Box, step: Step): seq<Record> {
    match step
    case Claim(limit, lease, now) => LeaseRecords(ClaimedIds(box, limit, now), box.nextToken)
    case Finish(id, token, ending) => if Owns(box, id, token) then [End(id, token, ending.Release?)] else []
    case RetryDead(destination, now) => [Again(Requeued(box, destination))]
    case _ => []
  }

  function Log(box: Box, steps: seq<Step>): seq<Record>
    decreases |steps|
  {
    if steps == [] then [] else Records(box, steps[0]) + Log(Apply(box, steps[0]), steps[1..])
  }

  // ---------------------------------------------------------------- what the log says

  function Counted(before: int, record: Record, id: int): int {
    if record.Lease? && record.id == id then before + 1
    else if record.End? && record.id == id && record.released then before - 1
    else if record.Again? && id in record.ids then 0
    else before
  }

  /** Claims minus releases since the row was last requeued. */
  function Attempts(log: seq<Record>, id: int): int {
    if log == [] then 0 else Counted(Attempts(log[..|log| - 1], id), log[|log| - 1], id)
  }

  /** The token of the latest claim of a row, 0 when it was never claimed. */
  function Latest(log: seq<Record>, id: int): int {
    if log == [] then 0
    else if log[|log| - 1].Lease? && log[|log| - 1].id == id then log[|log| - 1].token
    else Latest(log[..|log| - 1], id)
  }

  predicate TokenEnded(log: seq<Record>, token: int) {
    exists i | 0 <= i < |log| :: log[i].End? && log[i].token == token
  }

  predicate LeasedBefore(log: seq<Record>, j: int, id: int, token: int) {
    exists i | 0 <= i < j <= |log| :: log[i] == Lease(id, token)
  }

  ghost predicate RecordOk(box: Box, log: seq<Record>, i: int)
    requires 0 <= i < |log|
  {
    var r := log[i];
    && (!r.Again? ==> 0 < r.token < box.nextToken && r.id < box.nextRow)
    && (r.End? ==> LeasedBefore(log, i, r.id, r.token))
    && (r.Again? ==> forall id | id in r.ids :: id < box.nextRow)
  }

  /** No token is leased twice and no lease ends twice. */
  ghost predicate LogOk(box: Box, log: seq<Record>) {
    && (forall i | 0 <= i < |log| :: RecordOk(box, log, i))
    && (forall i, j | 0 <= i < j < |log| && log[i].Lease? && log[j].Lease? :: log[i].token < log[j].token)
    && (forall i, j | 0 <= i < j < |log| && log[i].End? && log[j].End? :: log[i].token != log[j].token)
  }

  /** A row is in flight exactly while it has a token and a lease. */
  predicate RowOk(row: Row) {
    && (row.status == Processing <==> row.token != 0)
    && (row.token != 0 <==> row.leaseUntil.Some?)
    && row.token >= 0 && row.attempts >= 0
    && (row.token != 0 ==> row.attempts >= 1)
  }

  ghost predicate RowFenced(log: seq<Record>, id: int, row: Row) {
    && RowOk(row)
    && row.attempts == Attempts(log, id)
    && (row.token != 0 ==> row.token == Latest(log, id) && !TokenEnded(log, row.token))
  }

  ghost predicate Fenced(box: Box, log: seq<Record>) {
    && box.nextToken > 0 && box.nextRow > 0
    && LogOk(box, log)
    && (forall id | id in box.rows ::
        0 < id < box.nextRow && box.rows[id].token < box.nextToken && RowFenced(log, id, box.rows[id]))
  }

  // ---------------------------------------------------------------- log lemmas

  lemma LogSnoc(log: seq<Record>, last: Record, id: int)
    ensures Attempts(log + [last], id) == Counted(Attempts(log, id), last, id)
    ensures Latest(log + [last], id) == if last.Lease? && last.id == id then last.token else Latest(log, id)
  {
    assert (log + [last])[..|log|] == log;
  }

  lemma TokenEndedSnoc(log: seq<Record>, last: Record, token: int)
    ensures TokenEnded(log + [last], token) <==> TokenEnded(log, token) || (last.End? && last.token == token)
  {
    var next := log + [last];
    if TokenEnded(log, token) {
      var i :| 0 <= i < |log| && log[i].End? && log[i].token == token;
      assert next[i] == log[i];
    }
    if last.End? && last.token == token { assert next[|log|] == last; }
  }

  /** A row that has not been inserted yet has no history. */
  lemma {:induction false} NoHistory(box: Box, log: seq<Record>, id: int)
    requires forall i | 0 <= i < |log| :: RecordOk(box, log, i)
    requires id >= box.nextRow
    ensures Attempts(log, id) == 0
    decreases |log|
  {
    if log != [] {
      var n := |log| - 1;
      forall i | 0 <= i < n ensures RecordOk(box, log[..n], i) {
        assert RecordOk(box, log, i);
        if log[i].End? {
          var k :| 0 <= k < i && log[k] == Lease(log[i].id, log[i].token);
          assert log[..n][k] == log[k];
        }
      }
      NoHistory(box, log[..n], id);
      assert RecordOk(box, log, n);
    }
  }

  lemma RecordOkSnoc(box: Box, next: Box, log: seq<Record>, last: Record, i: int)
    requires 0 <= i < |log| && RecordOk(box, log, i)
    requires box.nextRow <= next.nextRow && box.nextToken <= next.nextToken
    ensures RecordOk(next, log + [last], i)
  {
    var longer := log + [last];
    assert longer[i] == log[i];
    if log[i].End? {
      var k :| 0 <= k < i && log[k] == Lease(log[i].id, log[i].token);
      assert longer[k] == log[k];
    }
  }

  lemma LatestIsLeased(log: seq<Record>, id: int)
    requires Latest(log, id) != 0
    ensures LeasedBefore(log, |log|, id, Latest(log, id))
  {
    var n := |log| - 1;
    if log[n].Lease? && log[n].id == id {
      assert log[n] == Lease(id, Latest(log, id));
    } else {
      LatestIsLeased(log[..n], id);
      var i :| 0 <= i < n && log[..n][i] == Lease(id, Latest(log, id));
      assert log[i] == Lease(id, Latest(log, id));
    }
  }

  // ---------------------------------------------------------------- one step

  /** A change that counts no attempt and at most takes the lease away. */
  predicate Quiet(a: Row, b: Row) {
    b.attempts == a.attempts && RowOk(b) && (b.token == 0 || b.token == a.token)
  }

  /** Transactions that log nothing: rows change quietly, leave, or arrive unclaimed. */
  lemma QuietKeeps(box: Box, next: Box, log: seq<Record>)
    requires Fenced(box, log) && next.nextToken == box.nextToken && next.nextRow >= box.nextRow
    requires forall id | id in next.rows ::
      if id in box.rows then Quiet(box.rows[id], next.rows[id])
      else
        && box.nextRow <= id < next.nextRow
        && RowOk(next.rows[id]) && next.rows[id].attempts == 0 && next.rows[id].token == 0
    ensures Fenced(next, log)
  {
    hide Attempts, Latest, TokenEnded, LeasedBefore;
    forall id | id in next.rows
      ensures 0 < id < next.nextRow && next.rows[id].token < next.nextToken && RowFenced(log, id, next.rows[id])
    {
      if id !in box.rows { NoHistory(box, log, id); }
    }
    forall i | 0 <= i < |log| ensures RecordOk(next, log, i) { assert RecordOk(box, log, i); }
  }

  lemma {:induction false} EnqueuedShape(box: Box, targets: seq<int>, batch: int, decodable: bool, now: int)
    requires forall id | id in box.rows :: id < box.nextRow
    ensures var next := Enqueued(box, targets, batch, decodable, now);
      && next == box.(rows := next.rows, nextRow := box.nextRow + |targets|)
      && (forall id | id in box.rows :: id in next.rows && next.rows[id] == box.rows[id])
      && (forall id | id in next.rows && id !in box.rows ::
            box.nextRow <= id < box.nextRow + |targets|
                && next.rows[id] == NewRow(targets[id - box.nextRow], batch, decodable, now))
    decreases |targets|
  {
    if targets != [] { EnqueuedShape(box, targets[..|targets| - 1], batch, decodable, now); }
  }

  lemma EnqueueKeeps(box: Box, log: seq<Record>, targets: seq<int>, batch: int, decodable: bool, now: int)
    requires Fenced(box, log)
    ensures Fenced(Enqueued(box, targets, batch, decodable, now), log)
  {
    hide Attempts, Latest, TokenEnded, Enqueued, LogOk;
    EnqueuedShape(box, targets, batch, decodable, now);
    QuietKeeps(box, Enqueued(box, targets, batch, decodable, now), log);
  }

  lemma LogKeeps(box: Box, next: Box, log: seq<Record>, last: Record)
    requires LogOk(box, log) && box.nextRow <= next.nextRow && box.nextToken <= next.nextToken
    requires RecordOk(next, log + [last], |log|)
    requires last.Lease? ==> last.token == box.nextToken
    requires last.End? ==> !TokenEnded(log, last.token)
    ensures LogOk(next, log + [last])
  {
    var longer := log + [last];
    forall i | 0 <= i < |longer| ensures RecordOk(next, longer, i) {
      if i < |log| { RecordOkSnoc(box, next, log, last, i); }
    }
    forall i, j | 0 <= i < j < |longer| && longer[i].Lease? && longer[j].Lease?
      ensures longer[i].token < longer[j].token
    {
      assert RecordOk(box, log, i);
    }
  }

  lemma LeaseOneKeeps(box: Box, log: seq<Record>, id: int, until: int)
    requires Fenced(box, log) && id in box.rows
    ensures Fenced(box.(rows := box.rows[id := Leased(box.rows[id], box.nextToken, until)],
        nextToken := box.nextToken + 1), log + [Lease(id, box.nextToken)])
  {
    hide Attempts, Latest, TokenEnded, LeasedBefore, LogOk;
    var last := Lease(id, box.nextToken);
    var next := box.(rows := box.rows[id := Leased(box.rows[id], box.nextToken, until)],
        nextToken := box.nextToken + 1);
    LogKeeps(box, next, log, last);
    FreshTokenOpen(box, log);
    forall other | other in next.rows ensures RowFenced(log + [last], other, next.rows[other]) {
      LogSnoc(log, last, other);
      TokenEndedSnoc(log, last, next.rows[other].token);
    }
  }

  lemma FreshTokenOpen(box: Box, log: seq<Record>)
    requires LogOk(box, log)
    ensures !TokenEnded(log, box.nextToken)
  {
    forall i | 0 <= i < |log| && log[i].End? ensures log[i].token != box.nextToken { assert RecordOk(box, log, i); }
  }

  lemma {:induction false} LeaseAllKeeps(box: Box, log: seq<Record>, ids: seq<int>, until: int)
    requires Fenced(box, log) && (forall id | id in ids :: id in box.rows)
    ensures Fenced(LeaseAll(box, ids, until), log + LeaseRecords(ids, box.nextToken))
    ensures LeaseAll(box, ids, until).nextToken == box.nextToken + |ids|
    decreases |ids|
  {
    hide Fenced;
    if ids == [] {
      assert log + LeaseRecords(ids, box.nextToken) == log;
    } else {
      var n := |ids| - 1;
      LeaseAllKeeps(box, log, ids[..n], until);
      var before := LeaseAll(box, ids[..n], until);
      LeaseOneKeeps(before, log + LeaseRecords(ids[..n], box.nextToken), ids[n], until);
      assert log + LeaseRecords(ids, box.nextToken) == log + LeaseRecords(ids[..n], box.nextToken)
          + [Lease(ids[n], before.nextToken)];
    }
  }

  lemma ClaimKeeps(box: Box, log: seq<Record>, limit: int, lease: int, now: int)
    requires Fenced(box, log)
    ensures Fenced(Claimed(box, limit, lease, now), log + LeaseRecords(ClaimedIds(box, limit, now), box.nextToken))
  {
    hide Attempts, Latest, TokenEnded, LogOk, Due, Readable, FirstIds, LeaseAll;
    var current := Refreshed(box, now);
    QuietKeeps(box, current, log);
    var sealed := WithoutSealed(current, Selected(box, limit, now), now);
    QuietKeeps(current, sealed, log);
    LeaseAllKeeps(sealed, log, ClaimedIds(box, limit, now), now + LeaseTime(lease));
  }

  lemma FinishKeeps(box: Box, log: seq<Record>, id: int, token: int, ending: Ending)
    requires Fenced(box, log) && Owns(box, id, token)
    ensures Fenced(Finished(box, id, token, ending), log + [End(id, token, ending.Release?)])
  {
    hide Attempts, Latest, TokenEnded, LogOk, LeasedBefore;
    var last := End(id, token, ending.Release?);
    var next := Finished(box, id, token, ending);
    assert token == Latest(log, id) && !TokenEnded(log, token);
    LatestIsLeased(log, id);
    EndOk(next, log, last);
    LogKeeps(box, next, log, last);
    forall other | other in next.rows ensures RowFenced(log + [last], other, next.rows[other]) {
      LogSnoc(log, last, other);
      TokenEndedSnoc(log, last, next.rows[other].token);
      if other != id && next.rows[other].token == token {
        SameTokenSameRow(box, log, id, other, token);
      }
    }
  }

  lemma EndOk(box: Box, log: seq<Record>, last: Record)
    requires last.End? && LeasedBefore(log, |log|, last.id, last.token) && 0 < last.token < box.nextToken
        && last.id < box.nextRow
    ensures RecordOk(box, log + [last], |log|)
  {
    var i :| 0 <= i < |log| && log[i] == Lease(last.id, last.token);
    assert (log + [last])[i] == log[i];
  }

  /** Two rows never share a token. */
  lemma SameTokenSameRow(box: Box, log: seq<Record>, a: int, b: int, token: int)
    requires Fenced(box, log) && a in box.rows && b in box.rows && token != 0
    requires box.rows[a].token == token && box.rows[b].token == token
    ensures a == b
  {
    hide Attempts, TokenEnded, Latest;
    assert Latest(log, a) == token && Latest(log, b) == token;
    LatestIsLeased(log, a);
    LatestIsLeased(log, b);
    var i :| 0 <= i < |log| && log[i] == Lease(a, token);
    var j :| 0 <= j < |log| && log[j] == Lease(b, token);
  }

  lemma RetryKeeps(box: Box, log: seq<Record>, destination: int, now: int)
    requires Fenced(box, log)
    ensures Fenced(RetriedDead(box, destination, now), log + [Again(Requeued(box, destination))])
  {
    hide Attempts, Latest, TokenEnded, LogOk, LeasedBefore;
    var last := Again(Requeued(box, destination));
    var next := RetriedDead(box, destination, now);
    LogKeeps(box, next, log, last);
    forall other | other in next.rows ensures RowFenced(log + [last], other, next.rows[other]) {
      LogSnoc(log, last, other);
      TokenEndedSnoc(log, last, next.rows[other].token);
    }
  }

  lemma SilencedKeeps(box: Box, log: seq<Record>, destination: int, note: Note)
    requires Fenced(box, log)
    ensures Fenced(Silenced(box, destination, note), log)
  {
    hide Attempts, Latest, TokenEnded, LogOk;
    QuietKeeps(box, Silenced(box, destination, note), log);
  }

  lemma SameRowsKeep(box: Box, next: Box, log: seq<Record>)
    requires Fenced(box, log) && next.rows == box.rows && next.nextRow == box.nextRow && next.nextToken == box.nextToken
    ensures Fenced(next, log)
  {
    hide Attempts, Latest, TokenEnded, LogOk;
    QuietKeeps(box, next, log);
  }

  lemma DestinationKeeps(box: Box, log: seq<Record>, destinations: map<int, Destination>, next: int, silenced: bool,
          id: int, note: Note)
    requires Fenced(box, log)
    ensures var changed := box.(destinations := destinations, nextDestination := next);
      Fenced(if silenced then Silenced(changed, id, note) else changed, log)
  {
    hide Fenced, Silenced;
    var changed := box.(destinations := destinations, nextDestination := next);
    SameRowsKeep(box, changed, log);
    SilencedKeeps(changed, log, id, note);
  }

  /** Every transaction keeps rows and log in agreement. */
  lemma StepKeeps(box: Box, log: seq<Record>, step: Step)
    requires Fenced(box, log)
    ensures Fenced(Apply(box, step), log + Records(box, step))
  {
    hide Fenced, Enqueued, Targets, Claimed, ClaimedIds, Finished, RetriedDead, Requeued, Silenced;
    if !(step.Claim? || step.Finish? || step.RetryDead?) { assert log + Records(box, step) == log; }
    match step
    case System(decodable, now) => EnqueueKeeps(box, log, Ordered(ActiveIds(box)), 0, decodable, now);
    case Targeted(recipients, decodable, now) => EnqueueKeeps(box, log, Targets(box, recipients), 0, decodable, now);
    case Batch(generation, matching, now) =>
      if generation == box.generation {
        var stored := box.(batches := box.batches[box.nextBatch := generation], nextBatch := box.nextBatch + 1);
        SameRowsKeep(box, stored, log);
        EnqueueKeeps(stored, log, Ordered(ActiveIds(box) * matching), box.nextBatch, true, now);
      }
    case Claim(limit, lease, now) => ClaimKeeps(box, log, limit, lease, now);
    case Finish(id, token, ending) =>
      if Owns(box, id, token) {
        FinishKeeps(box, log, id, token, ending);
      } else {
        NothingFinished(box, id, token, ending);
        assert log + [] == log;
      }
    case Renew(id, token, lease, now) => RenewKeeps(box, log, id, token, lease, now);
    case Save(destination, enabled) =>
      if !(destination > 0 && !(destination in box.destinations && !box.destinations[destination].deleted)) {
        var target := if destination > 0 then destination else box.nextDestination;
        DestinationKeeps(box, log, box.destinations[target := Destination(enabled, false, true)],
                         if destination > 0 then box.nextDestination else box.nextDestination + 1,
                         !enabled, target, DestinationDisabled);
      }
    case Enable(destination, enabled) =>
      if destination in box.destinations {
        DestinationKeeps(box, log, box.destinations[destination := box.destinations[destination].(enabled := enabled)],
                         box.nextDestination, !enabled, destination, DestinationDisabled);
      }
    case Delete(destination) =>
      DestinationKeeps(box, log, box.destinations[destination := Destination(false, true, true)], box.nextDestination,
          true, destination, DestinationRemoved);
    case LoseKey(destination) =>
      if destination in box.destinations {
        DestinationKeeps(box, log, box.destinations[destination := box.destinations[destination].(readable := false)],
            box.nextDestination, false, destination, NoNote);
      }
    case ChangeIdentity(now) => MappedKeeps(box, log, step);
    case RetryDead(destination, now) => RetryKeeps(box, log, destination, now);
    case CleanOverdue(chosen, now) => MappedKeeps(box, log, step);
    case DropRows(chosen, cutoff) => MappedKeeps(box, log, step);
    case DropBatches(chosen) => SameRowsKeep(box, WithoutBatches(box, chosen), log);
  }

  lemma NothingFinished(box: Box, id: int, token: int, ending: Ending)
    requires !Owns(box, id, token)
    ensures Finished(box, id, token, ending) == box
  {
  }

  lemma RenewKeeps(box: Box, log: seq<Record>, id: int, token: int, lease: int, now: int)
    requires Fenced(box, log)
    ensures Fenced(Renewed(box, id, token, lease, now), log)
  {
    hide Attempts, Latest, TokenEnded, LogOk;
    QuietKeeps(box, Renewed(box, id, token, lease, now), log);
  }

  lemma MappedKeeps(box: Box, log: seq<Record>, step: Step)
    requires Fenced(box, log) && (step.ChangeIdentity? || step.CleanOverdue? || step.DropRows?)
    ensures Fenced(Apply(box, step), log)
  {
    hide Attempts, Latest, TokenEnded, LogOk;
    QuietKeeps(box, Apply(box, step), log);
  }

  // ---------------------------------------------------------------- whole runs

  lemma {:induction false} RunKeeps(box: Box, log: seq<Record>, steps: seq<Step>)
    requires Fenced(box, log)
    ensures Fenced(Run(box, steps), log + Log(box, steps))
    decreases |steps|
  {
    hide Fenced, Apply, Records;
    if steps == [] {
      assert log + [] == log;
    } else {
      StepKeeps(box, log, steps[0]);
      RunKeeps(Apply(box, steps[0]), log + Records(box, steps[0]), steps[1..]);
      assert log + Records(box, steps[0]) + Log(Apply(box, steps[0]), steps[1..]) == log + Log(box, steps);
    }
  }

  /** After any run: a row is in flight exactly while it holds a token; that token is
      the one of its latest claim and has not ended; its attempt count is its claims
      minus its releases since it was last requeued; no token is leased or ended twice. */
  lemma EveryRunIsFenced(steps: seq<Step>)
    ensures Fenced(Run(EMPTY, steps), Log(EMPTY, steps))
  {
    hide Apply, Records, Run, Log;
    RunKeeps(EMPTY, [], steps);
    assert [] + Log(EMPTY, steps) == Log(EMPTY, steps);
  }

  /** Whoever changes a row with a token holds its latest claim, and that claim was
      still open. */
  lemma OnlyTheLatestClaim(box: Box, log: seq<Record>, step: Step)
    requires Fenced(box, log) && (step.Finish? || step.Renew?) && Apply(box, step) != box
    ensures step.id in box.rows && step.token == Latest(log, step.id) && !TokenEnded(log, step.token)
    ensures forall id | id in box.rows && id != step.id ::
        id in Apply(box, step).rows && Apply(box, step).rows[id] == box.rows[id]
  {
    hide Attempts, Latest, TokenEnded, LogOk;
  }

  lemma EndedIsFenced(box: Box, log: seq<Record>, token: int)
    requires Fenced(box, log) && TokenEnded(log, token)
    ensures forall id :: !Owns(box, id, token)
  {
    hide Attempts, Latest, TokenEnded, LogOk;
  }

  lemma EndedStays(log: seq<Record>, more: seq<Record>, token: int)
    requires TokenEnded(log, token)
    ensures TokenEnded(log + more, token)
  {
    var i :| 0 <= i < |log| && log[i].End? && log[i].token == token;
    assert (log + more)[i] == log[i];
  }

  /** A claim is finished at most once: after one finish took effect, the token changes
      nothing in any continuation of the run. */
  lemma FinishedAtMostOnce(steps: seq<Step>, id: int, token: int, ending: Ending, more: seq<Step>, other: int,
          again: Ending)
    requires Owns(Run(EMPTY, steps), id, token)
    ensures var later := Run(Finished(Run(EMPTY, steps), id, token, ending), more);
      Finished(later, other, token, again) == later && !Owns(later, other, token)
  {
    hide Apply, Records, Run, Log, Fenced;
    var box, log := Run(EMPTY, steps), Log(EMPTY, steps);
    EveryRunIsFenced(steps);
    FinishKeeps(box, log, id, token, ending);
    var ended := log + [End(id, token, ending.Release?)];
    TokenEndedSnoc(log, End(id, token, ending.Release?), token);
    var first := Finished(box, id, token, ending);
    RunKeeps(first, ended, more);
    EndedStays(ended, Log(first, more), token);
    EndedIsFenced(Run(first, more), ended + Log(first, more), token);
    assert !Owns(Run(first, more), other, token);
    NothingFinished(Run(first, more), other, token, again);
  }
}
