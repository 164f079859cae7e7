/** What a claim and the end of a delivery do, said on the stored rows alone.
 */
module OutboxOutcome {
  import opened Crypto
  import opened Sets
  import opened OutboxSpec
  import opened OutboxSafety
  import opened OutboxOrder

  // ---------------------------------------------------------------- rows a claim may take

  /** Nobody holds the row: it is pending, or its lease ran out. */
  predicate Free(row: Row, now: int) {
    row.status == Pending || (row.status == Processing && (row.leaseUntil.None? || row.leaseUntil.value <= now))
  }

  /** First attempted 24 hours ago or more. */
  predicate Stale(row: Row, now: int) {
    now - row.firstAttempt >= 24 * 60 * 60
  }

  /** Under a running lease, or backing off. */
  predicate Blocks(row: Row, now: int) {
    || (row.status == Processing && !Free(row, now))
    || (Free(row, now) && !Stale(row, now) && row.nextAttempt > now)
  }

  /** An older row of the destination holds the row back. */
  predicate Blocked(box: Box, now: int, id: int)
    requires id in box.rows
  {
    exists p | p in box.rows ::
      p < id && box.rows[p].destination == box.rows[id].destination && Blocks(box.rows[p], now)
  }

  predicate Takable(box: Box, now: int, id: int) {
    && id in box.rows && Free(box.rows[id], now) && !Stale(box.rows[id], now) && box.rows[id].nextAttempt <= now
    && box.rows[id].destination in box.destinations
    && box.destinations[box.rows[id].destination].enabled && !box.destinations[box.rows[id].destination].deleted
    && !Blocked(box, now, id)
  }

  function TakableIds(box: Box, now: int): set<int> {
    set id | id in box.rows && Takable(box, now, id)
  }

  /** How many rows a request is answered with at most. */
  function Most(limit: int): nat {
    if limit <= 0 then 10 else if limit > 64 then 64 else limit
  }

  /** The row is one of the first that may be taken. */
  predicate Selects(box: Box, limit: int, now: int, id: int) {
    Takable(box, now, id) && |Before(TakableIds(box, now), id)| < Most(limit)
  }

  predicate Readable(box: Box, row: Row) {
    row.destination in box.destinations && box.destinations[row.destination].readable
  }

  lemma RefreshedRow(box: Box, now: int, id: int)
    requires id in box.rows
    ensures var row, next := box.rows[id], Refreshed(box, now).rows[id];
      next == if !Free(row, now) then row
              else if Stale(row, now) then
                row.(status := Dead, leaseUntil := None, token := 0, nextAttempt := now,
                     note := if row.note == NoNote then WindowExpired else row.note)
              else if row.status == Pending then row
              else row.(status := Pending, leaseUntil := None, token := 0)
  {
  }

  lemma DueIff(box: Box, now: int, id: int)
    ensures id in Due(Refreshed(box, now), now) <==> Takable(box, now, id)
  {
    hide Refreshed, Free, Stale, Blocked, HoldsBack, OutboxSpec.Held;
    RefreshedFrame(box, now);
    if id in box.rows {
      RefreshedStatus(box, now, id);
      SameHeld(box, now, id);
    }
  }

  lemma DueIsTakable(box: Box, now: int)
    ensures Due(Refreshed(box, now), now) == TakableIds(box, now)
  {
    hide Refreshed, Due, Takable;
    forall id ensures id in Due(Refreshed(box, now), now) <==> id in TakableIds(box, now) {
      DueIff(box, now, id);
      if Takable(box, now, id) { TakableFacts(box, now, id); }
    }
  }

  lemma RefreshedFrame(box: Box, now: int)
    ensures Refreshed(box, now).rows.Keys == box.rows.Keys
    ensures Refreshed(box, now) == box.(rows := Refreshed(box, now).rows)
  {
  }

  lemma RefreshedStatus(box: Box, now: int, p: int)
    requires p in box.rows
    ensures var next := Refreshed(box, now).rows[p];
      && (HoldsBack(next, now) <==> Blocks(box.rows[p], now)) && next.destination == box.rows[p].destination
      && (next.status == Pending && next.nextAttempt <= now <==>
            Free(box.rows[p], now) && !Stale(box.rows[p], now) && box.rows[p].nextAttempt <= now)
  {
    hide Refreshed;
    RefreshedRow(box, now, p);
  }

  lemma SameHeld(box: Box, now: int, id: int)
    requires id in box.rows && Refreshed(box, now).rows.Keys == box.rows.Keys
    ensures OutboxSpec.Held(Refreshed(box, now), now, id) <==> Blocked(box, now, id)
  {
    hide Refreshed, HoldsBack, Blocks;
    forall p | p in box.rows
      ensures HoldsBack(Refreshed(box, now).rows[p], now) <==> Blocks(box.rows[p], now)
      ensures Refreshed(box, now).rows[p].destination == box.rows[p].destination
    {
      RefreshedStatus(box, now, p);
    }
  }

  lemma SelectedIff(box: Box, limit: int, now: int, id: int)
    ensures id in Selected(box, limit, now) <==> Selects(box, limit, now, id)
  {
    hide Due, Refreshed, FirstIds, Takable;
    DueIsTakable(box, now);
    FirstIdsIff(TakableIds(box, now), ClaimLimit(limit), id);
    if Takable(box, now, id) { TakableFacts(box, now, id); }
  }

  /** A claim hands out a row if and only if it is free, less than 24 hours old and due, its
      destination is enabled, not deleted and readable, no older row of that destination
      is backing off or under a running lease, and fewer than `limit` older rows qualify. */
  lemma ClaimTakesIff(box: Box, limit: int, lease: int, now: int, id: int)
    ensures (exists item | item in ClaimedItems(box, limit, lease, now) :: item.id == id) <==>
      Selects(box, limit, now, id) && Readable(box, box.rows[id])
  {
    hide Selected, Refreshed, Takable, Claimed, FirstIds, Due, OutboxSpec.Readable;
    SelectedIff(box, limit, now, id);
    RefreshedFrame(box, now);
    if id in box.rows { RefreshedStatus(box, now, id); }
    ReadableIff(Refreshed(box, now), Selected(box, limit, now), id);
    var ids, items := ClaimedIds(box, limit, now), ClaimedItems(box, limit, lease, now);
    if id in ids {
      var i :| 0 <= i < |ids| && ids[i] == id;
      assert items[i].id == id && items[i] in items;
      TakableFacts(box, now, id);
    }
    if item :| item in items && item.id == id {
      var i :| 0 <= i < |items| && items[i] == item;
      assert ids[i] in ids;
    }
    if Selects(box, limit, now, id) { TakableFacts(box, now, id); }
  }

  lemma TakableFacts(box: Box, now: int, id: int)
    requires Takable(box, now, id)
    ensures id in box.rows && box.rows[id].destination in box.destinations
    ensures Free(box.rows[id], now) && !Stale(box.rows[id], now)
  {
  }

  lemma ReadableIff(box: Box, ids: seq<int>, id: int)
    ensures id in OutboxSpec.Readable(box, ids) <==> id in ids && !Sealed(box, id)
  {
  }

  // ---------------------------------------------------------------- what a claim leaves of each row

  /** How long a claim or a renewal leases: two minutes unless a whole second or more is asked for. */
  function LeaseSeconds(lease: int): int {
    if lease >= 1 then lease else 120
  }

  /** The whole effect of a claim on one row. A settled row and a running lease stay as they
      are; a free row that is 24 hours old is dead; one that is handed out is in flight under
      a fresh token; one that would be but has an unreadable destination is dead; every other
      free row is pending, whatever lease it had lost. */
  lemma ClaimLeaves(box: Box, limit: int, lease: int, now: int, id: int)
    requires id in box.rows
    ensures id in Claimed(box, limit, lease, now).rows
    ensures var row, next := box.rows[id], Claimed(box, limit, lease, now).rows[id];
      if !Free(row, now) then next == row
      else if Stale(row, now) then
        next == row.(status := Dead, leaseUntil := None, token := 0, nextAttempt := now,
                     note := if row.note == NoNote then WindowExpired else row.note)
      else if !Selects(box, limit, now, id) then
        next == if row.status == Pending then row else row.(status := Pending, leaseUntil := None, token := 0)
      else if !Readable(box, row) then
        next == row.(status := Dead, leaseUntil := None, token := 0, nextAttempt := now, note := UrlUnreadable)
      else
        && box.nextToken <= next.token
        && next == row.(status := Processing, attempts := row.attempts + 1, token := next.token,
                        leaseUntil := Some(now + LeaseSeconds(lease)))
  {
    hide Selected, Refreshed, Takable, Claimed, FirstIds, Due, OutboxSpec.Readable, Free, Stale, ClaimedIds,
        WithoutSealed;
    var current, selected, ids := Refreshed(box, now), Selected(box, limit, now), ClaimedIds(box, limit, now);
    ClaimedShape(box, limit, lease, now);
    RefreshedRow(box, now, id);
    RefreshedFrame(box, now);
    SelectedIff(box, limit, now, id);
    ClaimedIdIff(box, limit, now, id);
    if id in ids {
      var i :| 0 <= i < |ids| && ids[i] == id;
    } else {
      SealedRow(current, selected, now, id);
    }
    if Takable(box, now, id) { TakableFacts(box, now, id); }
  }

  lemma ClaimedIdIff(box: Box, limit: int, now: int, id: int)
    ensures id in ClaimedIds(box, limit, now) <==> id in Selected(box, limit, now) && !Sealed(Refreshed(box, now), id)
  {
    hide Selected, Refreshed, OutboxSpec.Readable;
    ReadableIff(Refreshed(box, now), Selected(box, limit, now), id);
  }

  lemma SealedRow(box: Box, ids: seq<int>, now: int, id: int)
    requires id in box.rows
    ensures var row := box.rows[id];
      WithoutSealed(box, ids, now).rows[id] ==
        if id in ids && Sealed(box, id) && row.status == Pending
        then row.(status := Dead, leaseUntil := None, token := 0, nextAttempt := now, note := UrlUnreadable) else row
  {
  }

  /** Everything else of the outbox but the token counter stays; the items come oldest first,
      say of their rows what was stored, count this attempt, and carry the rows' new tokens,
      which are all different and new. */
  lemma ClaimItems(box: Box, limit: int, lease: int, now: int)
    ensures var next, items := Claimed(box, limit, lease, now), ClaimedItems(box, limit, lease, now);
      && next == box.(rows := next.rows, nextToken := box.nextToken + |items|) && next.rows.Keys == box.rows.Keys
      && (forall i, j | 0 <= i < j < |items| :: items[i].id < items[j].id)
      && (forall i | 0 <= i < |items| ::
            && items[i].id in box.rows
            && var row := box.rows[items[i].id];
               items[i] == Item(items[i].id, box.nextToken + i, row.destination, row.firstAttempt,
                                row.attempts + 1, row.decodable)
               && next.rows[items[i].id].token == box.nextToken + i)
  {
    hide Refreshed, Claimed, ClaimedIds, Free, Stale, WithoutSealed;
    ClaimedShape(box, limit, lease, now);
    RefreshedFrame(box, now);
    var ids, items := ClaimedIds(box, limit, now), ClaimedItems(box, limit, lease, now);
    forall i | 0 <= i < |items|
      ensures ids[i] in box.rows && items[i].id == ids[i]
      ensures Refreshed(box, now).rows[ids[i]].attempts == box.rows[ids[i]].attempts
      ensures Refreshed(box, now).rows[ids[i]].decodable == box.rows[ids[i]].decodable
      ensures Refreshed(box, now).rows[ids[i]].destination == box.rows[ids[i]].destination
      ensures Refreshed(box, now).rows[ids[i]].firstAttempt == box.rows[ids[i]].firstAttempt
    {
      RefreshedRow(box, now, ids[i]);
    }
  }

  /** A row that can still be delivered is never given up by a claim, a crash or a lost
      lease: only an unreadable destination makes it dead. */
  lemma ClaimNeverBuries(box: Box, limit: int, lease: int, now: int, id: int)
    requires id in box.rows && box.rows[id].Live() && now - box.rows[id].firstAttempt < 24 * 60 * 60
    requires var d := box.rows[id].destination; d in box.destinations ==> box.destinations[d].readable
    ensures id in Claimed(box, limit, lease, now).rows && Claimed(box, limit, lease, now).rows[id].Live()
  {
    hide Claimed, Takable;
    ClaimLeaves(box, limit, lease, now, id);
    if Takable(box, now, id) { TakableFacts(box, now, id); }
  }

  // ---------------------------------------------------------------- how a delivery ends

  /** What recording a send's outcome leaves of the row its token still owns: a notification
      that was accepted is delivered; one that was refused is dead when the refusal is
      permanent or its first attempt is 24 hours old, and otherwise pending and due again
      after the delay; one that cannot be prepared is dead. */
  lemma SettledRow(box: Box, item: Item, outcome: Outcome, now: int, delay: int)
    requires item.id in box.rows && item.token != 0
    requires box.rows[item.id].status == Processing && box.rows[item.id].token == item.token
    ensures var row := box.rows[item.id];
      var next := Finished(box, item.id, item.token, EndingOf(item, outcome, now, delay));
      && next == box.(rows := box.rows[item.id := next.rows[item.id]])
      && next.rows[item.id] ==
           if item.decodable && outcome.Accepted? then
             row.(status := Delivered, deliveredAt := now, note := NoNote, leaseUntil := None, token := 0)
           else
             var dead := !item.decodable || outcome.permanent || now - item.firstAttempt >= 24 * 60 * 60;
             row.(status := if dead then Dead else Pending, nextAttempt := now + delay, note := SendFailed,
                  leaseUntil := None, token := 0)
  {
  }

  /** A row that is handed back unsent is pending again as if it had not been claimed. */
  lemma ReleasedRow(box: Box, id: int, limit: int, lease: int, now: int, token: int)
    requires id in box.rows && box.rows[id].status == Pending && box.rows[id].attempts >= 0
    requires box.rows[id].leaseUntil.None? && box.rows[id].token == 0 && box.nextToken > 0
    requires var next := Claimed(box, limit, lease, now);
      id in next.rows && next.rows[id].status == Processing && next.rows[id].token == token
    ensures Finished(Claimed(box, limit, lease, now), id, token, Release).rows[id] == box.rows[id]
  {
    hide Claimed, Takable, Selects;
    ClaimLeaves(box, limit, lease, now, id);
  }

  /** A token that does not own its row changes nothing. */
  lemma FencedOut(box: Box, id: int, token: int, ending: Ending)
    requires id !in box.rows || token == 0 || box.rows[id].status != Processing || box.rows[id].token != token
    ensures Finished(box, id, token, ending) == box
  {
  }
}
