/** What a claim selects, which rows can still change, and which rows may be live.
 */
module OutboxSafety {
  import opened Crypto
  import opened Sets
  import opened OutboxSpec

  // ---------------------------------------------------------------- the shape of a claim

  lemma {:induction false} ReadableAscends(box: Box, ids: seq<int>)
    requires Ascending(ids)
    ensures Ascending(Readable(box, ids))
    decreases |ids|
  {
    if ids != [] {
      var n := |ids| - 1;
      ReadableAscends(box, ids[..n]);
      var before := Readable(box, ids[..n]);
      forall i | 0 <= i < |before| ensures before[i] < ids[n] {
        assert before[i] in ids[..n];
      }
    }
  }

  ghost predicate LeasedInOrder(box: Box, ids: seq<int>, until: int, next: Box) {
    && next == box.(rows := next.rows, nextToken := box.nextToken + |ids|)
    && (forall id | id in box.rows :: id in next.rows)
    && (forall id | id in box.rows && id !in ids :: next.rows[id] == box.rows[id])
    && (forall i | 0 <= i < |ids| ::
        ids[i] in box.rows && next.rows[ids[i]] == Leased(box.rows[ids[i]], box.nextToken + i, until))
  }

  lemma LeaseOneMore(box: Box, ids: seq<int>, until: int, before: Box, last: int)
    requires LeasedInOrder(box, ids, until, before) && last in box.rows && last !in ids
    ensures LeasedInOrder(box, ids + [last], until,
        before.(rows := before.rows[last := Leased(before.rows[last], before.nextToken, until)],
        nextToken := before.nextToken + 1))
  {
    hide Leased;
    forall i | 0 <= i < |ids| ensures ids[i] != last { assert ids[i] in ids; }
  }

  lemma {:induction false} LeaseAllShape(box: Box, ids: seq<int>, until: int)
    requires Ascending(ids) && forall id | id in ids :: id in box.rows
    ensures LeasedInOrder(box, ids, until, LeaseAll(box, ids, until))
    decreases |ids|
  {
    hide Leased;
    if ids != [] {
      hide LeasedInOrder;
      var n := |ids| - 1;
      LeaseAllShape(box, ids[..n], until);
      assert ids[n] in ids && ids[n] !in ids[..n];
      LeaseOneMore(box, ids[..n], until, LeaseAll(box, ids[..n], until), ids[n]);
      assert ids[..n] + [ids[n]] == ids;
    }
  }

  /** A selected row is pending, due, not held back, and its destination is active and
      readable. */
  lemma ClaimedIsDue(box: Box, limit: int, now: int, id: int)
    requires id in ClaimedIds(box, limit, now)
    ensures var current := Refreshed(box, now);
      && id in Due(current, now) && !Sealed(current, id)
      && (forall p | p in Due(current, now) && p < id
          && current.rows[p].destination == current.rows[id].destination :: p in ClaimedIds(box, limit, now))
  {
    hide Due, Refreshed, Readable;
    var selected := Selected(box, limit, now);
    var i :| 0 <= i < |selected| && selected[i] == id;
    DueIsPending(Refreshed(box, now), now, id);
  }

  /** The outbox after a claim, row by row. */
  lemma ClaimedShape(box: Box, limit: int, lease: int, now: int)
    ensures var next := Claimed(box, limit, lease, now);
      var ids := ClaimedIds(box, limit, now);
      var current := Refreshed(box, now);
      && Ascending(ids)
      && next == box.(rows := next.rows, nextToken := box.nextToken + |ids|)
      && next.rows.Keys == box.rows.Keys
      && (forall id | id in box.rows && id !in ids ::
          next.rows[id] == WithoutSealed(current, Selected(box, limit, now), now).rows[id])
      && (forall i | 0 <= i < |ids| :: ids[i] in box.rows && current.rows[ids[i]].status == Pending
            && next.rows[ids[i]] == Leased(current.rows[ids[i]], box.nextToken + i, now + LeaseTime(lease)))
  {
    hide Due, Readable, FirstIds, LeaseAll, Lapsed, Buried;
    var current := Refreshed(box, now);
    var ids := ClaimedIds(box, limit, now);
    ReadableAscends(current, Selected(box, limit, now));
    var sealed := WithoutSealed(current, Selected(box, limit, now), now);
    LeaseAllShape(sealed, ids, now + LeaseTime(lease));
    forall i | 0 <= i < |ids|
      ensures ids[i] in box.rows && current.rows[ids[i]].status == Pending
          && sealed.rows[ids[i]] == current.rows[ids[i]]
    {
      assert ids[i] in ids;
      ClaimedIsDue(box, limit, now, ids[i]);
      DueIsPending(current, now, ids[i]);
    }
  }

  lemma DueIsPending(box: Box, now: int, id: int)
    requires id in Due(box, now)
    ensures id in box.rows && box.rows[id].status == Pending && box.rows[id].nextAttempt <= now
        && ActiveId(box, box.rows[id].destination)
  {
  }

  /** Of every destination a claim takes an id-prefix of the live rows: an older row
      that is still live afterwards was taken by the same claim. */
  lemma ClaimTakesPrefix(box: Box, limit: int, lease: int, now: int, id: int, p: int)
    requires id in ClaimedIds(box, limit, now)
    requires p in box.rows && p < id && box.rows[p].destination == box.rows[id].destination
    requires Claimed(box, limit, lease, now).rows.Keys == box.rows.Keys
        && Claimed(box, limit, lease, now).rows[p].Live()
    ensures p in ClaimedIds(box, limit, now)
  {
    hide Due, Readable, FirstIds, LeaseAll, Claimed;
    var current := Refreshed(box, now);
    ClaimedShape(box, limit, lease, now);
    ClaimedIsDue(box, limit, now, id);
    var ids := ClaimedIds(box, limit, now);
    assert current.rows[p].Live() by {
      if p in ids { var i :| 0 <= i < |ids| && ids[i] == p; }
    }
    OlderIsDue(current, now, id, p);
  }

  lemma OlderIsDue(box: Box, now: int, id: int, p: int)
    requires id in Due(box, now) && p in box.rows && p < id
    requires box.rows[p].destination == box.rows[id].destination && box.rows[p].Live()
    ensures p in Due(box, now)
  {
  }

  /** No row first attempted 24 hours ago or more is ever claimed. */
  lemma NoStaleClaim(box: Box, limit: int, now: int, id: int)
    requires id in ClaimedIds(box, limit, now)
    ensures now - box.rows[id].firstAttempt < RETRY_WINDOW
  {
    hide Due, Readable, FirstIds;
    ClaimedIsDue(box, limit, now, id);
    DueIsPending(Refreshed(box, now), now, id);
  }

  // ---------------------------------------------------------------- claims around cleanup

  /** Two outboxes with the same live rows, destinations and next token. */
  ghost predicate LiveAgree(x: Box, y: Box) {
    && x.destinations == y.destinations && x.nextToken == y.nextToken
    && (forall id | id in x.rows && x.rows[id].Live() :: id in y.rows && y.rows[id] == x.rows[id])
    && (forall id | id in y.rows && y.rows[id].Live() :: id in x.rows && x.rows[id] == y.rows[id])
  }

  lemma AgreeHeld(x: Box, y: Box, now: int, id: int)
    requires LiveAgree(x, y) && id in x.rows && id in y.rows && x.rows[id] == y.rows[id]
    ensures Held(x, now, id) ==> Held(y, now, id)
  {
    if Held(x, now, id) {
      var p :| p in x.rows && p < id && x.rows[p].destination == x.rows[id].destination && HoldsBack(x.rows[p], now);
      assert x.rows[p].Live() && p in y.rows && HoldsBack(y.rows[p], now);
    }
  }

  lemma AgreeDue(x: Box, y: Box, now: int)
    requires LiveAgree(x, y)
    ensures Due(x, now) == Due(y, now)
  {
    hide Held;
    forall id ensures id in Due(x, now) <==> id in Due(y, now) {
      if id in x.rows && x.rows[id].Live() { AgreeHeld(x, y, now, id); AgreeHeld(y, x, now, id); }
    }
  }

  lemma {:induction false} AgreeReadable(x: Box, y: Box, ids: seq<int>)
    requires forall id | id in ids :: Sealed(x, id) == Sealed(y, id)
    ensures Readable(x, ids) == Readable(y, ids)
    decreases |ids|
  {
    hide Sealed;
    if ids != [] {
      assert ids[|ids| - 1] in ids;
      AgreeReadable(x, y, ids[..|ids| - 1]);
    }
  }

  lemma ClaimedRow(box: Box, limit: int, lease: int, now: int, i: nat)
    requires i < |ClaimedIds(box, limit, now)|
    ensures var id, next, current :=
        ClaimedIds(box, limit, now)[i], Claimed(box, limit, lease, now), Refreshed(box, now);
      && id in next.rows && id in current.rows && current.rows[id].Live()
      && next.rows[id] == Leased(current.rows[id], box.nextToken + i, now + LeaseTime(lease))
  {
    hide Due, Readable, FirstIds, LeaseAll, Claimed, WithoutSealed, ClaimedIds;
    ClaimedShape(box, limit, lease, now);
  }

  lemma AgreeIds(x: Box, y: Box, limit: int, now: int)
    requires LiveAgree(Refreshed(x, now), Refreshed(y, now))
    ensures ClaimedIds(x, limit, now) == ClaimedIds(y, limit, now)
  {
    hide Due, Readable, FirstIds, Refreshed;
    var a, b := Refreshed(x, now), Refreshed(y, now);
    AgreeDue(a, b, now);
    forall id | id in Selected(x, limit, now) ensures Sealed(a, id) == Sealed(b, id) { DueIsPending(a, now, id); }
    AgreeReadable(a, b, Selected(x, limit, now));
  }

  /** What a claim hands out depends on the live rows alone. */
  lemma LiveRowsDecideClaim(x: Box, y: Box, limit: int, lease: int, now: int)
    requires LiveAgree(Refreshed(x, now), Refreshed(y, now))
    ensures ClaimedItems(x, limit, lease, now) == ClaimedItems(y, limit, lease, now)
  {
    hide ClaimedIds, Claimed, Refreshed, Leased;
    AgreeIds(x, y, limit, now);
    SameToken(x, y, now);
    var left, right := ClaimedItems(x, limit, lease, now), ClaimedItems(y, limit, lease, now);
    forall i | 0 <= i < |left| ensures left[i] == right[i] {
      ClaimedRow(x, limit, lease, now, i);
      ClaimedRow(y, limit, lease, now, i);
    }
  }

  lemma SameToken(x: Box, y: Box, now: int)
    requires LiveAgree(Refreshed(x, now), Refreshed(y, now))
    ensures x.nextToken == y.nextToken
  {
  }

  /** The cleanup pass never takes a row away from a worker: it leaves every running lease
      alone, and whatever it buries, each later claim hands out exactly the items it would
      have handed out without it. */
  lemma CleanupKeepsClaims(box: Box, chosen: set<int>, now: int, limit: int, lease: int, later: int)
    requires now <= later
    ensures ClaimedItems(CleanedOverdue(box, chosen, now), limit, lease, later) ==
        ClaimedItems(box, limit, lease, later)
    ensures forall id, token | Owns(box, id, token) && box.rows[id].leaseUntil.Some?
        && box.rows[id].leaseUntil.value > now ::
      Owns(CleanedOverdue(box, chosen, now), id, token)
  {
    hide ClaimedItems, ClaimedIds;
    var cleaned := CleanedOverdue(box, chosen, now);
    assert LiveAgree(Refreshed(cleaned, later), Refreshed(box, later));
    LiveRowsDecideClaim(cleaned, box, limit, lease, later);
  }

  /** Retention changes neither what claims hand out nor who owns a row. */
  lemma DiscardKeepsClaims(box: Box, chosen: set<int>, cutoff: int, limit: int, lease: int, now: int)
    ensures ClaimedItems(WithoutRows(box, chosen, cutoff), limit, lease, now) == ClaimedItems(box, limit, lease, now)
    ensures forall id, token :: Owns(WithoutRows(box, chosen, cutoff), id, token) <==> Owns(box, id, token)
  {
    hide ClaimedItems, ClaimedIds;
    var kept := WithoutRows(box, chosen, cutoff);
    assert LiveAgree(Refreshed(kept, now), Refreshed(box, now));
    LiveRowsDecideClaim(kept, box, limit, lease, now);
  }

  // ---------------------------------------------------------------- final rows

  /** Everything a claim does to a row that is not in flight and not pending. */
  lemma ClaimKeepsSettled(box: Box, limit: int, lease: int, now: int, id: int)
    requires id in box.rows && !box.rows[id].Live()
    ensures Claimed(box, limit, lease, now).rows[id] == box.rows[id]
  {
    hide Due, Readable, FirstIds, LeaseAll, Claimed;
    ClaimedShape(box, limit, lease, now);
    if id in ClaimedIds(box, limit, now) {
      ClaimedIsDue(box, limit, now, id);
      DueIsPending(Refreshed(box, now), now, id);
    }
  }

  ghost predicate RowsBelow(box: Box) {
    forall id | id in box.rows :: id < box.nextRow
  }

  lemma {:induction false} EnqueuedKeepsRows(box: Box, targets: seq<int>, batch: int, decodable: bool, now: int)
    requires RowsBelow(box)
    ensures var next := Enqueued(box, targets, batch, decodable, now);
      && RowsBelow(next) && next.nextRow == box.nextRow + |targets|
      && next == box.(rows := next.rows, nextRow := next.nextRow)
      && (forall id | id in box.rows :: id in next.rows && next.rows[id] == box.rows[id])
      && (forall id | id in next.rows && id !in box.rows :: id >= box.nextRow
            && exists i | 0 <= i < |targets| :: next.rows[id] == NewRow(targets[i], batch, decodable, now))
    decreases |targets|
  {
    if targets != [] {
      var n := |targets| - 1;
      EnqueuedKeepsRows(box, targets[..n], batch, decodable, now);
      var before, next := Enqueued(box, targets[..n], batch, decodable, now),
          Enqueued(box, targets, batch, decodable, now);
      forall id | id in next.rows && id !in box.rows
        ensures id >= box.nextRow && exists i | 0 <= i < |targets| ::
            next.rows[id] == NewRow(targets[i], batch, decodable, now)
      {
        if id == before.nextRow {
          assert next.rows[id] == NewRow(targets[n], batch, decodable, now);
        } else {
          var i :| 0 <= i < n && before.rows[id] == NewRow(targets[..n][i], batch, decodable, now);
          assert next.rows[id] == NewRow(targets[i], batch, decodable, now);
        }
      }
    }
  }

  /** Delivered is final, and a dead letter leaves only by a manual retry: no other step
      changes a row that is not live, except to discard it. */
  lemma SettledIsFinal(box: Box, step: Step, id: int)
    requires RowsBelow(box) && id in box.rows && !box.rows[id].Live()
    requires box.rows[id].status == Delivered || !step.RetryDead?
    ensures id in Apply(box, step).rows ==> Apply(box, step).rows[id] == box.rows[id]
    ensures !step.DropRows? ==> id in Apply(box, step).rows
  {
    hide Enqueued, Targets, Claimed, FirstIds;
    match step
    case System(decodable, now) => EnqueuedKeepsRows(box, Ordered(ActiveIds(box)), 0, decodable, now);
    case Targeted(recipients, decodable, now) => EnqueuedKeepsRows(box, Targets(box, recipients), 0, decodable, now);
    case Batch(generation, matching, now) =>
      if generation == box.generation {
        var stored := box.(batches := box.batches[box.nextBatch := generation], nextBatch := box.nextBatch + 1);
        EnqueuedKeepsRows(stored, Ordered(ActiveIds(box) * matching), box.nextBatch, true, now);
      }
    case Claim(limit, lease, now) =>
      ClaimKeepsSettled(box, limit, lease, now, id);
      ClaimedShape(box, limit, lease, now);
    case _ =>
  }

  // ---------------------------------------------------------------- live rows

  ghost predicate MayBeLive(box: Box, row: Row) {
    row.Live() ==> ActiveId(box, row.destination) && !Outdated(box, row, box.generation)
  }

  /** Live rows belong to active destinations, and a live digest whose batch is still
      stored is of the current generation. */
  ghost predicate LiveInv(box: Box) {
    && RowsBelow(box) && 0 < box.nextBatch
    && (forall id | id in box.rows :: box.rows[id].batch < box.nextBatch && MayBeLive(box, box.rows[id]))
    && (forall b | b in box.batches :: 0 < b < box.nextBatch && box.batches[b] <= box.generation)
    && (forall d | d in box.destinations :: 0 < d < box.nextDestination)
  }

  lemma EnqueueLive(box: Box, targets: seq<int>, batch: int, decodable: bool, now: int)
    requires LiveInv(box) && (forall id | id in targets :: ActiveId(box, id))
    requires batch < box.nextBatch && (batch in box.batches ==> box.batches[batch] == box.generation)
    ensures LiveInv(Enqueued(box, targets, batch, decodable, now))
  {
    hide Enqueued;
    EnqueuedKeepsRows(box, targets, batch, decodable, now);
    var next := Enqueued(box, targets, batch, decodable, now);
    forall id | id in next.rows ensures next.rows[id].batch < next.nextBatch && MayBeLive(next, next.rows[id]) {
      if id !in box.rows {
        var i :| 0 <= i < |targets| && next.rows[id] == NewRow(targets[i], batch, decodable, now);
        assert targets[i] in targets;
      } else {
        assert MayBeLive(box, box.rows[id]);
      }
    }
  }

  lemma ClaimLive(box: Box, limit: int, lease: int, now: int)
    requires LiveInv(box)
    ensures LiveInv(Claimed(box, limit, lease, now))
  {
    hide Due, Readable, FirstIds, LeaseAll, Claimed, ClaimedIds;
    ClaimedShape(box, limit, lease, now);
    var next := Claimed(box, limit, lease, now);
    var ids := ClaimedIds(box, limit, now);
    forall id | id in next.rows ensures next.rows[id].batch < next.nextBatch && MayBeLive(next, next.rows[id]) {
      assert MayBeLive(box, box.rows[id]);
      if id in ids {
        var i :| 0 <= i < |ids| && ids[i] == id;
      }
    }
  }

  /** Transactions that change rows in place: a live row was live before, with the same
      destination and batch. */
  lemma MappedLive(box: Box, next: Box)
    requires LiveInv(box)
    requires next.nextRow == box.nextRow && next.nextBatch == box.nextBatch && next.generation == box.generation
    requires next.destinations == box.destinations && next.nextDestination == box.nextDestination
    requires forall b | b in next.batches :: b in box.batches && next.batches[b] == box.batches[b]
    requires forall id | id in next.rows ::
        id in box.rows && next.rows[id].batch == box.rows[id].batch
        && next.rows[id].destination == box.rows[id].destination
    requires forall id | id in next.rows && next.rows[id].Live() ::
        box.rows[id].Live() || (ActiveId(box, box.rows[id].destination) && !Outdated(box, box.rows[id], box.generation))
    ensures LiveInv(next)
  {
    forall id | id in next.rows ensures MayBeLive(next, next.rows[id]) { assert MayBeLive(box, box.rows[id]); }
  }

  lemma SilencedLive(box: Box, id: int, destination: Destination, note: Note)
    requires LiveInv(box) && 0 < id <= box.nextDestination
    ensures var following := if id < box.nextDestination then box.nextDestination else box.nextDestination + 1;
      var next := box.(destinations := box.destinations[id := destination], nextDestination := following);
      LiveInv(if destination.Active() then next else Silenced(next, id, note))
  {
    var following := if id < box.nextDestination then box.nextDestination else box.nextDestination + 1;
    var changed := box.(destinations := box.destinations[id := destination], nextDestination := following);
    var next := if destination.Active() then changed else Silenced(changed, id, note);
    forall r | r in next.rows ensures MayBeLive(next, next.rows[r]) { assert MayBeLive(box, box.rows[r]); }
  }

  lemma IdentityLive(box: Box, now: int)
    requires LiveInv(box)
    ensures LiveInv(ChangedIdentity(box, now))
  {
    var next := ChangedIdentity(box, now);
    forall r | r in next.rows ensures MayBeLive(next, next.rows[r]) { assert MayBeLive(box, box.rows[r]); }
  }

  lemma BatchLive(box: Box, generation: int, matching: set<int>, now: int)
    requires LiveInv(box)
    ensures LiveInv(RecordBatch(box, generation, matching, now))
  {
    hide Enqueued, FirstIds;
    if generation == box.generation {
      var stored := box.(batches := box.batches[box.nextBatch := generation], nextBatch := box.nextBatch + 1);
      forall id | id in stored.rows ensures MayBeLive(stored, stored.rows[id]) { assert MayBeLive(box, box.rows[id]); }
      EnqueueLive(stored, Ordered(ActiveIds(box) * matching), box.nextBatch, true, now);
    }
  }

  lemma SaveLive(box: Box, id: int, enabled: bool)
    requires LiveInv(box) && 0 < box.nextDestination
    ensures LiveInv(SavedDestination(box, id, enabled))
  {
    hide LiveInv, Silenced;
    if !(id > 0 && !(id in box.destinations && !box.destinations[id].deleted)) {
      var target := if id > 0 then id else box.nextDestination;
      assert id > 0 ==> id < box.nextDestination by { IdBounds(box); }
      SilencedLive(box, target, Destination(enabled, false, true), DestinationDisabled);
    }
  }

  lemma IdBounds(box: Box)
    requires LiveInv(box)
    ensures 0 < box.nextBatch && 0 !in box.batches
    ensures forall d | d in box.destinations :: 0 < d < box.nextDestination
  {
  }

  lemma StepLive(box: Box, step: Step)
    requires LiveInv(box) && 0 < box.nextDestination
    ensures LiveInv(Apply(box, step)) && 0 < Apply(box, step).nextDestination
  {
    hide Enqueued, Claimed, LiveInv, FirstIds, Targets;
    FrameOfStep(box, step);
    IdBounds(box);
    match step
    case System(decodable, now) => EnqueueLive(box, Ordered(ActiveIds(box)), 0, decodable, now);
    case Targeted(recipients, decodable, now) => EnqueueLive(box, Targets(box, recipients), 0, decodable, now);
    case Batch(generation, matching, now) => BatchLive(box, generation, matching, now);
    case Claim(limit, lease, now) => ClaimLive(box, limit, lease, now);
    case Finish(id, token, ending) => MappedLive(box, Finished(box, id, token, ending));
    case Renew(id, token, lease, now) => MappedLive(box, Renewed(box, id, token, lease, now));
    case Save(destination, enabled) => SaveLive(box, destination, enabled);
    case Enable(destination, enabled) =>
      if destination in box.destinations && !box.destinations[destination].deleted {
        SilencedLive(box, destination, box.destinations[destination].(enabled := enabled), DestinationDisabled);
      }
    case Delete(destination) =>
      if destination in box.destinations {
        SilencedLive(box, destination, Destination(false, true, true), DestinationRemoved);
      }
    case LoseKey(destination) => LoseKeyLive(box, destination);
    case ChangeIdentity(now) => IdentityLive(box, now);
    case RetryDead(destination, now) => MappedLive(box, RetriedDead(box, destination, now));
    case CleanOverdue(chosen, now) => MappedLive(box, CleanedOverdue(box, chosen, now));
    case DropRows(chosen, cutoff) => MappedLive(box, WithoutRows(box, chosen, cutoff));
    case DropBatches(chosen) => MappedLive(box, WithoutBatches(box, chosen));
  }

  lemma FrameOfStep(box: Box, step: Step)
    requires LiveInv(box) && 0 < box.nextDestination
    ensures 0 < Apply(box, step).nextDestination
  {
    hide Enqueued, Claimed, FirstIds, Targets;
    match step
    case System(decodable, now) => EnqueuedKeepsRows(box, Ordered(ActiveIds(box)), 0, decodable, now);
    case Targeted(recipients, decodable, now) => EnqueuedKeepsRows(box, Targets(box, recipients), 0, decodable, now);
    case Batch(generation, matching, now) =>
      var stored := box.(batches := box.batches[box.nextBatch := generation], nextBatch := box.nextBatch + 1);
      EnqueuedKeepsRows(stored, Ordered(ActiveIds(box) * matching), box.nextBatch, true, now);
    case Claim(limit, lease, now) => ClaimedShape(box, limit, lease, now);
    case _ =>
  }

  lemma LoseKeyLive(box: Box, id: int)
    requires LiveInv(box)
    ensures LiveInv(UnreadableDestination(box, id))
  {
    var next := UnreadableDestination(box, id);
    forall r | r in next.rows ensures MayBeLive(next, next.rows[r]) { assert MayBeLive(box, box.rows[r]); }
  }

  lemma {:induction false} RunLive(box: Box, steps: seq<Step>)
    requires LiveInv(box) && 0 < box.nextDestination
    ensures LiveInv(Run(box, steps))
    decreases |steps|
  {
    hide LiveInv, Apply;
    if steps != [] {
      StepLive(box, steps[0]);
      RunLive(Apply(box, steps[0]), steps[1..]);
    }
  }

  /** In every reachable state each live row belongs to an enabled, undeleted destination,
      and while its batch is stored that batch has the current generation. */
  lemma LiveRowsBelong(steps: seq<Step>, id: int)
    requires id in Run(EMPTY, steps).rows && Run(EMPTY, steps).rows[id].Live()
    ensures var box := Run(EMPTY, steps);
      var row := box.rows[id];
      && row.destination in box.destinations && box.destinations[row.destination].enabled
          && !box.destinations[row.destination].deleted
      && (row.batch != 0 && row.batch in box.batches ==> box.batches[row.batch] == box.generation)
  {
    hide Run;
    RunLive(EMPTY, steps);
    assert MayBeLive(Run(EMPTY, steps), Run(EMPTY, steps).rows[id]);
  }
}
