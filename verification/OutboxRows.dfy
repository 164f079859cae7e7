/** The other outbox operations, said on the stored rows alone: which rows a notification
    adds, what a change of settings does to every row, what a delivered batch leaves. */
module OutboxRows {
  import opened Crypto
  import opened Sets
  import opened OutboxSpec
  import opened OutboxOrder
  import opened OutboxStore
  import opened Routing
  import opened OutboxOutcome

  // ---------------------------------------------------------------- what a rule set routes

  /** Severe enough, from a wanted collector that is not excluded, of a wanted kind. */
  predicate Wants(rules: Rules, c: Change) {
    && (rules.minSeverity == Low || c.severity == High || c.severity == rules.minSeverity)
    && (|rules.includes| > 0 ==> c.collector in rules.includes)
    && c.collector !in rules.excludes
    && (|rules.kinds| > 0 ==> c.kind in rules.kinds)
  }

  /** A destination gets the wanted changes, all of them, each once and in order. */
  lemma {:induction false} RoutedExactly(rules: Rules, changes: seq<Change>) returns (at: seq<int>)
    ensures Ascending(at) && forall i :: i in at <==> 0 <= i < |changes| && Wants(rules, changes[i])
    ensures (forall k | 0 <= k < |at| :: 0 <= at[k] < |changes|) && Routed(rules, changes) == Picked(changes, at)
    decreases |changes|
  {
    if changes == [] {
      at := [];
    } else {
      var n := |changes| - 1;
      at := RoutedExactly(rules, changes[..n]);
      assert forall k | 0 <= k < |at| :: at[k] in at;
      if Wants(rules, changes[n]) { at := at + [n]; }
    }
  }

  // ---------------------------------------------------------------- rows a notification adds

  /** `next` has one new pending row per target, in that order, due at once and never tried. */
  ghost predicate Appends(rows: map<int, Row>, next: map<int, Row>, first: int, targets: seq<int>, batch: int,
                          decodable: bool, now: int)
  {
    forall id :: if first <= id < first + |targets| then
        id in next && next[id] ==
          Row(destination := targets[id - first], batch := batch, decodable := decodable, status := Pending,
              attempts := 0, firstAttempt := now, nextAttempt := now, leaseUntil := None, token := 0, note := NoNote,
              createdAt := now, deliveredAt := 0)
      else (id in next <==> id in rows) && (id in rows ==> next[id] == rows[id])
  }

  lemma {:induction false} EnqueuedAppends(box: Box, targets: seq<int>, batch: int, decodable: bool, now: int)
    ensures var next := Enqueued(box, targets, batch, decodable, now);
      && next == box.(rows := next.rows, nextRow := box.nextRow + |targets|)
      && Appends(box.rows, next.rows, box.nextRow, targets, batch, decodable, now)
    decreases |targets|
  {
    if targets != [] { EnqueuedAppends(box, targets[..|targets| - 1], batch, decodable, now); }
  }

  predicate Reached(box: Box, id: int) {
    id in box.destinations && box.destinations[id].enabled && !box.destinations[id].deleted
  }

  /** A system notification adds one row for every destination that is enabled and not deleted. */
  lemma SystemRows(box: Box, decodable: bool, now: int) returns (targets: seq<int>)
    ensures Ascending(targets) && forall id :: id in targets <==> Reached(box, id)
    ensures var next := EnqueueSystem(box, decodable, now);
      && next == box.(rows := next.rows, nextRow := box.nextRow + |targets|)
      && Appends(box.rows, next.rows, box.nextRow, targets, 0, decodable, now)
  {
    hide Enqueued, Ordered;
    targets := Ordered(ActiveIds(box));
    OrderedCovers(ActiveIds(box));
    EnqueuedAppends(box, targets, 0, decodable, now);
  }

  /** The first mention of a destination that is enabled and not deleted. */
  predicate FirstMention(box: Box, listed: seq<int>, i: int) {
    0 <= i < |listed| && listed[i] > 0 && Reached(box, listed[i]) && listed[i] !in listed[..i]
  }

  lemma {:induction false} TargetIff(box: Box, listed: seq<int>, id: int)
    ensures id in Targets(box, listed) <==> id in listed && id > 0 && Reached(box, id)
    decreases |listed|
  {
    if listed != [] {
      var n := |listed| - 1;
      assert listed == listed[..n] + [listed[n]];
      TargetIff(box, listed[..n], id);
      TargetIff(box, listed[..n], listed[n]);
    }
  }

  lemma {:induction false} TargetsAre(box: Box, listed: seq<int>) returns (at: seq<int>)
    ensures Ascending(at) && forall i :: i in at <==> FirstMention(box, listed, i)
    ensures (forall k | 0 <= k < |at| :: 0 <= at[k] < |listed|) && Targets(box, listed) == Picked(listed, at)
    decreases |listed|
  {
    hide FirstMention;
    if listed == [] {
      at := [];
      NoMention(box);
    } else {
      var n := |listed| - 1;
      at := TargetsAre(box, listed[..n]);
      assert forall k | 0 <= k < |at| :: at[k] in at;
      forall i ensures FirstMention(box, listed, i) <==>
          FirstMention(box, listed[..n], i) || (i == n && FirstMention(box, listed, n)) {
        MentionSnoc(box, listed, i);
      }
      TargetIff(box, listed[..n], listed[n]);
      LastMention(box, listed);
      if FirstMention(box, listed, n) {
        assert Picked(listed, at + [n]) == Picked(listed[..n], at) + [listed[n]];
        at := at + [n];
      } else {
        assert Picked(listed, at) == Picked(listed[..n], at);
      }
    }
  }

  lemma NoMention(box: Box)
    ensures forall i :: !FirstMention(box, [], i)
  {
  }

  lemma LastMention(box: Box, listed: seq<int>)
    requires listed != []
    ensures var n := |listed| - 1;
      FirstMention(box, listed, n) <==> listed[n] > 0 && ActiveId(box, listed[n]) && listed[n] !in listed[..n]
    ensures !FirstMention(box, listed[..|listed| - 1], |listed| - 1)
  {
  }

  lemma MentionSnoc(box: Box, listed: seq<int>, i: int)
    requires listed != []
    ensures i != |listed| - 1 ==> (FirstMention(box, listed, i) <==> FirstMention(box, listed[..|listed| - 1], i))
    ensures FirstMention(box, listed[..|listed| - 1], i) ==> 0 <= i < |listed| - 1
  {
    if 0 <= i < |listed| - 1 { assert listed[..|listed| - 1][..i] == listed[..i]; }
  }

  /** A targeted notification adds one row for the first mention of every listed destination
      that is enabled and not deleted. */
  lemma TargetedRows(box: Box, recipients: seq<int>, decodable: bool, now: int) returns (at: seq<int>)
    ensures Ascending(at) && forall i :: i in at <==> FirstMention(box, recipients, i)
    ensures forall k | 0 <= k < |at| :: 0 <= at[k] < |recipients|
    ensures var next := EnqueueFor(box, recipients, decodable, now);
      && next == box.(rows := next.rows, nextRow := box.nextRow + |at|)
      && Appends(box.rows, next.rows, box.nextRow, Picked(recipients, at), 0, decodable, now)
  {
    hide Enqueued, Targets;
    at := TargetsAre(box, recipients);
    EnqueuedAppends(box, Targets(box, recipients), 0, decodable, now);
  }

  /** A recorded batch adds one row for every such destination that wants one of its
      changes. A batch of an outdated generation adds nothing and is not stored. */
  lemma DigestRows(box: Box, generation: int, rulesOf: int -> NormalRules, changes: seq<Change>, now: int)
    returns (targets: seq<int>)
    ensures Ascending(targets)
    ensures forall id :: id in targets <==>
      generation == box.generation && Reached(box, id) && exists c | c in changes :: Wants(rulesOf(id), c)
    ensures var next := RecordBatch(box, generation, Matching(ActiveIds(box), rulesOf, changes), now);
      if generation != box.generation then next == box
      else
        && next == box.(rows := next.rows, nextRow := box.nextRow + |targets|,
                        batches := box.batches[box.nextBatch := generation], nextBatch := box.nextBatch + 1)
        && Appends(box.rows, next.rows, box.nextRow, targets, box.nextBatch, true, now)
  {
    hide Enqueued, Ordered, Routed;
    targets := [];
    if generation == box.generation {
      var ids := ActiveIds(box) * Matching(ActiveIds(box), rulesOf, changes);
      targets := Ordered(ids);
      OrderedCovers(ids);
      forall id ensures id in ids <==> Reached(box, id) && exists c | c in changes :: Wants(rulesOf(id), c) {
        RoutedNone(rulesOf(id), changes);
      }
      var stored := box.(batches := box.batches[box.nextBatch := generation], nextBatch := box.nextBatch + 1);
      EnqueuedAppends(stored, targets, box.nextBatch, true, now);
    }
  }

  lemma RoutedNone(rules: Rules, changes: seq<Change>)
    ensures Routed(rules, changes) != [] <==> exists c | c in changes :: Wants(rules, c)
  {
    hide Routed;
    var at := RoutedExactly(rules, changes);
    if Routed(rules, changes) != [] {
      assert at[0] in at && changes[at[0]] in changes;
    }
    if c :| c in changes && Wants(rules, c) {
      var i :| 0 <= i < |changes| && changes[i] == c;
      assert i in at;
    }
  }

  // ---------------------------------------------------------------- renewing and settings

  /** A renewal moves the end of the lease of the row its token still owns. */
  lemma RenewedRow(box: Box, id: int, token: int, lease: int, now: int)
    ensures Renewed(box, id, token, lease, now) ==
      if id in box.rows && token != 0 && box.rows[id].status == Processing && box.rows[id].token == token
      then box.(rows := box.rows[id := box.rows[id].(leaseUntil := Some(now + LeaseSeconds(lease)))])
      else box
  {
  }

  /** A row that was waiting or in flight, given up for a reason. */
  function Stopped(row: Row, note: Note): Row {
    row.(status := Dead, leaseUntil := None, token := 0, note := note)
  }

  predicate Unsettled(row: Row) {
    row.status != Delivered && row.status != Dead
  }

  /** Disabling or deleting a destination gives up exactly its unsettled rows and leaves
      their schedule; anything else leaves every row as it is. */
  ghost predicate Silences(rows: map<int, Row>, next: map<int, Row>, destination: int, silent: bool, note: Note) {
    && next.Keys == rows.Keys
    && forall id | id in rows ::
      next[id] == if silent && rows[id].destination == destination && Unsettled(rows[id]) then Stopped(rows[id], note)
        else rows[id]
  }

  lemma SavedEffect(box: Box, id: int, enabled: bool)
    ensures var next := SavedDestination(box, id, enabled);
      if id > 0 && (id !in box.destinations || box.destinations[id].deleted) then next == box
      else
        var target := if id > 0 then id else box.nextDestination;
        && next == box.(rows := next.rows,
                        destinations := box.destinations[target := Destination(enabled, false, true)],
                        nextDestination := if id > 0 then box.nextDestination else box.nextDestination + 1)
        && Silences(box.rows, next.rows, target, !enabled, DestinationDisabled)
  {
  }

  lemma EnabledEffect(box: Box, id: int, enabled: bool)
    ensures var next := EnabledDestination(box, id, enabled);
      if id !in box.destinations || box.destinations[id].deleted then next == box
      else
        && next == box.(rows := next.rows,
                        destinations := box.destinations[id := box.destinations[id].(enabled := enabled)])
        && Silences(box.rows, next.rows, id, !enabled, DestinationDisabled)
  {
  }

  lemma DeletedEffect(box: Box, id: int)
    ensures var next := DeletedDestination(box, id);
      if id !in box.destinations || box.destinations[id].deleted then next == box
      else
        && next == box.(rows := next.rows, destinations := next.destinations)
        && next.destinations.Keys == box.destinations.Keys
        && next.destinations[id].deleted && !next.destinations[id].enabled
        && (forall d | d in box.destinations && d != id :: next.destinations[d] == box.destinations[d])
        && Silences(box.rows, next.rows, id, true, DestinationRemoved)
  {
  }

  /** The row belongs to a stored batch of another generation. */
  predicate Foreign(box: Box, row: Row, generation: int) {
    row.batch != 0 && row.batch in box.batches && box.batches[row.batch] != generation
  }

  /** A change of identity starts a generation and gives up exactly the unsettled rows
      of stored batches that are not of it. */
  lemma IdentityEffect(box: Box, now: int)
    ensures var next := ChangedIdentity(box, now);
      && next == box.(rows := next.rows, generation := box.generation + 1) && next.rows.Keys == box.rows.Keys
      && forall id | id in box.rows :: next.rows[id] ==
          if Unsettled(box.rows[id]) && Foreign(box, box.rows[id], box.generation + 1)
          then Stopped(box.rows[id], IdentityChanged).(nextAttempt := now) else box.rows[id]
  {
  }

  /** A manual retry makes exactly the dead rows of an active destination due again, with a
      new 24-hour window, except those given up for a change of identity and those of a
      stored batch of another generation. */
  lemma RetriedEffect(box: Box, destination: int, now: int)
    ensures var next := RetriedDead(box, destination, now);
      && next == box.(rows := next.rows) && next.rows.Keys == box.rows.Keys
      && Requeued(box, destination) <= box.rows.Keys
      && forall id | id in box.rows ::
          var row := box.rows[id];
          var again := Reached(box, destination) && row.destination == destination && row.status == Dead
              && row.note != IdentityChanged && !Foreign(box, row, box.generation);
          && (id in Requeued(box, destination) <==> again)
          && next.rows[id] ==
               if again then row.(status := Pending, attempts := 0, firstAttempt := now, nextAttempt := now,
                                  leaseUntil := None, token := 0, note := NoNote, deliveredAt := 0)
               else row
  {
  }

  predicate Expired(row: Row, cutoff: int) {
    if row.status == Delivered then row.deliveredAt < cutoff else row.status == Dead && row.createdAt < cutoff
  }

  /** Retention drops, of the chosen rows, exactly those delivered or created before the cutoff
      and settled; the cleanup pass gives up exactly the unsettled ones that are 24 hours old
      and under no running lease. */
  lemma RetentionEffect(box: Box, chosen: set<int>, cutoff: int, now: int)
    ensures var kept := WithoutRows(box, chosen, cutoff);
      && kept == box.(rows := kept.rows)
      && (forall id :: id in kept.rows <==> id in box.rows && !(id in chosen && Expired(box.rows[id], cutoff)))
      && forall id | id in kept.rows :: kept.rows[id] == box.rows[id]
    ensures var clean := CleanedOverdue(box, chosen, now);
      && clean == box.(rows := clean.rows) && clean.rows.Keys == box.rows.Keys
      && forall id | id in box.rows :: clean.rows[id] ==
          if id in chosen && Free(box.rows[id], now) && Stale(box.rows[id], now)
          then Stopped(box.rows[id], if box.rows[id].note == NoNote then WindowExpired else box.rows[id].note)
                 .(nextAttempt := now)
          else box.rows[id]
  {
  }

  // ---------------------------------------------------------------- a delivered batch

  /** An earlier item of the batch for the same destination reached the provider and was refused. */
  predicate RefusedBefore(items: seq<Item>, around: seq<Circumstance>, i: int)
    requires 0 <= i < |items| && i <= |around|
  {
    exists j | 0 <= j < i ::
      items[j].destination == items[i].destination && items[j].decodable && around[j].outcome.Refused?
  }

  predicate Owned(box: Box, item: Item) {
    && item.id in box.rows && item.token != 0
    && box.rows[item.id].status == Processing && box.rows[item.id].token == item.token
  }

  /** What one item's row becomes: untouched when the bookkeeping failed, pending and not counted
      when it was held back, otherwise settled by the provider's answer. */
  function RowAfter(row: Row, item: Item, c: Circumstance, held: bool): Row {
    if !c.written then row
    else if held then
      row.(status := Pending, leaseUntil := None, token := 0,
           attempts := if row.attempts > 0 then row.attempts - 1 else 0)
    else if item.decodable && c.outcome.Accepted? then
      row.(status := Delivered, deliveredAt := c.now, note := NoNote, leaseUntil := None, token := 0)
    else
      var dead := !item.decodable || c.outcome.permanent || c.now - item.firstAttempt >= 24 * 60 * 60;
      row.(status := if dead then Dead else Pending, nextAttempt := c.now + c.delay, note := SendFailed,
           leaseUntil := None, token := 0)
  }

  ghost predicate RowsLeft(e: Engine, next: Engine, around: seq<Circumstance>)
    requires e.worker.Working? && |around| <= |e.worker.items|
    requires forall i | 0 <= i < |e.worker.items| :: Owned(e.box, e.worker.items[i])
  {
    var items := e.worker.items;
    && next.box == e.box.(rows := next.box.rows) && next.box.rows.Keys == e.box.rows.Keys
    && (forall i {:trigger items[i]} | 0 <= i < |around| ::
          Owned(e.box, items[i]) && next.box.rows[items[i].id] ==
            RowAfter(e.box.rows[items[i].id], items[i], around[i], RefusedBefore(items, around, i)))
    && (forall id | id in e.box.rows && (forall i | 0 <= i < |around| :: items[i].id != id) ::
          next.box.rows[id] == e.box.rows[id])
  }

  ghost predicate SentThen(e: Engine, next: Engine, around: seq<Circumstance>)
    requires e.worker.Working? && |around| <= |e.worker.items|
  {
    var items := e.worker.items;
    forall id :: id in next.sent <==> id in e.sent || exists i | 0 <= i < |around| ::
        items[i].id == id && items[i].decodable && around[i].outcome.Accepted? && !RefusedBefore(items, around, i)
  }

  /** One claimed batch of different rows, delivered: after a refusal the younger items of
      that destination go back unsent as if unclaimed, every other item is sent and settled
      by its own answer, and no other row is touched. */
  lemma {:induction false} DeliveredBatch(e: Engine, around: seq<Circumstance>)
    requires e.worker.Working? && !e.worker.sending && e.worker.at == 0 && e.worker.failed == {}
    requires |around| <= |e.worker.items|
    requires forall i, j | 0 <= i < j < |e.worker.items| :: e.worker.items[i].id != e.worker.items[j].id
    requires forall i | 0 <= i < |e.worker.items| :: Owned(e.box, e.worker.items[i])
    ensures RowsLeft(e, Turns(e, around), around) && SentThen(e, Turns(e, around), around)
    decreases |around|
  {
    hide Finished, EndingOf, RowsLeft, SentThen;
    if around == [] {
      NothingLeft(e);
    } else {
      var n := |around| - 1;
      DeliveredBatch(e, around[..n]);
      FailedAre(e, around[..n]);
      var before := Turns(e, around[..n]);
      assert before.worker.items == e.worker.items;
      StillOwned(e, before, around);
      TurnRow(e, before, around);
      TurnRows(e, before, around, LastTurn(before, around));
      TurnSent(e, before, around);
    }
  }

  lemma StillOwned(e: Engine, before: Engine, around: seq<Circumstance>)
    requires e.worker.Working? && around != [] && |around| <= |e.worker.items|
    requires forall i, j | 0 <= i < j < |e.worker.items| :: e.worker.items[i].id != e.worker.items[j].id
    requires forall i | 0 <= i < |e.worker.items| :: Owned(e.box, e.worker.items[i])
    requires RowsLeft(e, before, around[..|around| - 1])
    ensures Owned(before.box, e.worker.items[|around| - 1])
  {
    var n, items := |around| - 1, e.worker.items;
    assert forall i | 0 <= i < n :: items[i].id != items[n].id;
    assert Owned(e.box, items[n]) && before.box.rows[items[n].id] == e.box.rows[items[n].id];
  }

  lemma NothingLeft(e: Engine)
    requires e.worker.Working? && forall i | 0 <= i < |e.worker.items| :: Owned(e.box, e.worker.items[i])
    ensures RowsLeft(e, e, []) && SentThen(e, e, [])
  {
  }

  /** The destinations that are held back are those of the refused items. */
  lemma {:induction false} FailedAre(e: Engine, around: seq<Circumstance>)
    requires e.worker.Working? && !e.worker.sending && e.worker.at == 0 && e.worker.failed == {}
    requires |around| <= |e.worker.items|
    ensures forall d :: d in Turns(e, around).worker.failed <==> exists j | 0 <= j < |around| ::
      e.worker.items[j].destination == d && e.worker.items[j].decodable && around[j].outcome.Refused?
    decreases |around|
  {
    hide Finished, EndingOf;
    if around != [] {
      FailedAre(e, around[..|around| - 1]);
    }
  }

  /** The turn of the last circumstance. */
  function LastTurn(before: Engine, around: seq<Circumstance>): Engine
    requires around != [] && before.worker.Working? && !before.worker.sending
    requires before.worker.at < |before.worker.items|
  {
    var c := around[|around| - 1];
    Turn(before, c.outcome, c.now, c.delay, c.written)
  }

  lemma TurnRow(e: Engine, before: Engine, around: seq<Circumstance>)
    requires e.worker.Working? && around != [] && |around| <= |e.worker.items|
    requires before.worker.Working? && !before.worker.sending && before.worker.items == e.worker.items
    requires before.worker.at == |around| - 1
    requires forall d :: d in before.worker.failed <==> exists j | 0 <= j < |around| - 1 ::
      e.worker.items[j].destination == d && e.worker.items[j].decodable && around[j].outcome.Refused?
    requires Owned(before.box, e.worker.items[|around| - 1])
    ensures var n, items := |around| - 1, e.worker.items;
      LastTurn(before, around).box == before.box.(rows := before.box.rows[items[n].id :=
        RowAfter(before.box.rows[items[n].id], items[n], around[n], RefusedBefore(items, around, n))])
  {
    assert Holding(before.worker) <==> RefusedBefore(e.worker.items, around, |around| - 1);
  }

  lemma TurnRows(e: Engine, before: Engine, around: seq<Circumstance>, next: Engine)
    requires e.worker.Working? && around != [] && |around| <= |e.worker.items|
    requires forall i, j | 0 <= i < j < |e.worker.items| :: e.worker.items[i].id != e.worker.items[j].id
    requires forall i | 0 <= i < |e.worker.items| :: Owned(e.box, e.worker.items[i])
    requires RowsLeft(e, before, around[..|around| - 1]) && e.worker.items[|around| - 1].id in before.box.rows
    requires var n, items := |around| - 1, e.worker.items;
      next.box == before.box.(rows := before.box.rows[items[n].id :=
        RowAfter(before.box.rows[items[n].id], items[n], around[n], RefusedBefore(items, around, n))])
    ensures RowsLeft(e, next, around)
  {
    hide RowAfter, RefusedBefore;
    var n, items := |around| - 1, e.worker.items;
    forall i | 0 <= i < n
      ensures items[i].id != items[n].id && (RefusedBefore(items, around, i) <==> RefusedBefore(items, around[..n], i))
    {
      SameRefused(items, around, i);
    }
    assert Owned(e.box, items[n]) && before.box.rows[items[n].id] == e.box.rows[items[n].id];
  }

  lemma SameRefused(items: seq<Item>, around: seq<Circumstance>, i: nat)
    requires i < |around| - 1 && |around| <= |items|
    ensures RefusedBefore(items, around, i) <==> RefusedBefore(items, around[..|around| - 1], i)
  {
  }

  lemma TurnSent(e: Engine, before: Engine, around: seq<Circumstance>)
    requires e.worker.Working? && around != [] && |around| <= |e.worker.items|
    requires before.worker.Working? && !before.worker.sending && before.worker.items == e.worker.items
    requires before.worker.at == |around| - 1
    requires forall d :: d in before.worker.failed <==> exists j | 0 <= j < |around| - 1 ::
      e.worker.items[j].destination == d && e.worker.items[j].decodable && around[j].outcome.Refused?
    requires SentThen(e, before, around[..|around| - 1])
    ensures SentThen(e, LastTurn(before, around), around)
  {
    hide Finished, EndingOf, RefusedBefore;
    var n, items := |around| - 1, e.worker.items;
    LastHeld(e, before, around);
    forall i | 0 <= i < n ensures RefusedBefore(items, around, i) <==> RefusedBefore(items, around[..n], i) {
      SameRefused(items, around, i);
    }
  }

  lemma LastHeld(e: Engine, before: Engine, around: seq<Circumstance>)
    requires e.worker.Working? && around != [] && |around| <= |e.worker.items|
    requires before.worker.Working? && !before.worker.sending && before.worker.items == e.worker.items
    requires before.worker.at == |around| - 1
    requires forall d :: d in before.worker.failed <==> exists j | 0 <= j < |around| - 1 ::
      e.worker.items[j].destination == d && e.worker.items[j].decodable && around[j].outcome.Refused?
    ensures Holding(before.worker) <==> RefusedBefore(e.worker.items, around, |around| - 1)
  {
  }
}
