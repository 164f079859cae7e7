/** The outbox tables and the delivery worker as objects, each method proved against the
    functions of `OutboxSpec` and `OutboxOrder`.
 */
module OutboxStore {
  import opened Crypto
  import opened Sets
  import opened OutboxSpec
  import opened OutboxSafety
  import opened OutboxOrder
  import opened Routing

  // ---------------------------------------------------------------- routing

  /** The changes a rule set routes, in their order. */
  function Routed(rules: Rules, changes: seq<Change>): (r: seq<Change>)
    ensures forall c | c in r :: c in changes && rules.Matches(c)
    ensures forall c | c in changes && rules.Matches(c) :: c in r
  {
    if changes == [] then []
    else
      var last := changes[|changes| - 1];
      assert changes == changes[..|changes| - 1] + [last];
      Routed(rules, changes[..|changes| - 1]) + (if rules.Matches(last) then [last] else [])
  }

  function Matching(active: set<int>, rulesOf: int -> NormalRules, changes: seq<Change>): set<int> {
    set d | d in active && Routed(rulesOf(d), changes) != []
  }

  /** Every cached payload is what some rule set with that key routes. */
  ghost predicate Rendered(cache: map<string, seq<Change>>, changes: seq<Change>) {
    forall key | key in cache :: exists r: NormalRules :: r.Key() == key && cache[key] == Routed(r, changes)
  }

  lemma NothingRendered(changes: seq<Change>)
    ensures Rendered(map[], changes)
  {
  }

  /** A rule set with a known key reuses the payload. */
  method Render(rules: NormalRules, changes: seq<Change>, cache: map<string, seq<Change>>)
    returns (payload: seq<Change>, grown: map<string, seq<Change>>)
    requires Rendered(cache, changes)
    ensures payload == Routed(rules, changes) && Rendered(grown, changes)
  {
    hide Routed, Rules.Key, Rules.Normal;
    var key := rules.Key();
    grown := cache;
    if key in cache {
      payload := cache[key];
      ghost var same: NormalRules :| same.Key() == key && payload == Routed(same, changes);
      KeyInjective(same, rules);
    } else {
      payload := Filtered(rules, changes);
      grown := cache[key := payload];
    }
  }

  // ---------------------------------------------------------------- sequence lemmas

  lemma EnqueuedSnoc(box: Box, targets: seq<int>, next: int, batch: int, decodable: bool, now: int)
    ensures var before := Enqueued(box, targets, batch, decodable, now);
      Enqueued(box, targets + [next], batch, decodable, now) ==
        before.(rows := before.rows[before.nextRow := NewRow(next, batch, decodable, now)],
            nextRow := before.nextRow + 1)
  {
    assert (targets + [next])[..|targets|] == targets;
  }

  class Outbox {
    var rows: map<int, Row>
    var nextRow: int
    var destinations: map<int, Destination>
    var nextDestination: int
    var generation: int
    var batches: map<int, int>
    var nextBatch: int
    var nextToken: int

    ghost function State(): Box
      reads this
    {
      Box(rows, nextRow, destinations, nextDestination, generation, batches, nextBatch, nextToken)
    }

    constructor ()
      ensures State() == EMPTY
    {
      rows, nextRow, destinations, nextDestination := map[], 1, map[], 1;
      generation, batches, nextBatch, nextToken := 1, map[], 1, 1;
    }

    // ---------------------------------------------------------------- enqueue

    method InsertRow(destination: int, batch: int, decodable: bool, now: int)
      modifies this`rows, this`nextRow
      ensures rows == old(rows)[old(nextRow) := NewRow(destination, batch, decodable, now)]
          && nextRow == old(nextRow) + 1
    {
      rows := rows[nextRow := NewRow(destination, batch, decodable, now)];
      nextRow := nextRow + 1;
    }

    /** One row for every active destination, in id order. */
    method EnqueueOutbox(decodable: bool, now: int)
      modifies this`rows, this`nextRow
      ensures State() == EnqueueSystem(old(State()), decodable, now)
    {
      hide Enqueued, Ordered;
      ghost var start := State();
      var targets := Ordered(set id | id in destinations && destinations[id].Active());
      assert targets == Ordered(ActiveIds(start));
      NoneEnqueued(start, 0, decodable, now);
      for i := 0 to |targets|
        invariant State() == Enqueued(start, targets[..i], 0, decodable, now)
      {
        assert targets[..i + 1] == targets[..i] + [targets[i]];
        EnqueuedSnoc(start, targets[..i], targets[i], 0, decodable, now);
        InsertRow(targets[i], 0, decodable, now);
      }
      assert targets[..|targets|] == targets;
    }

    /** One row for every listed destination that is active, without repetition. */
    method EnqueueOutboxFor(recipients: seq<int>, decodable: bool, now: int)
      modifies this`rows, this`nextRow
      ensures State() == EnqueueFor(old(State()), recipients, decodable, now)
    {
      hide Enqueued;
      ghost var start := State();
      var seen: set<int> := {};
      NoneEnqueued(start, 0, decodable, now);
      assert Targets(start, []) == [];
      for i := 0 to |recipients|
        invariant State() == Enqueued(start, Targets(start, recipients[..i]), 0, decodable, now)
        invariant destinations == start.destinations
        invariant forall id :: id in seen <==> id > 0 && id in recipients[..i]
        invariant forall id | id in Targets(start, recipients[..i]) :: id in seen
        invariant forall id | id in seen && ActiveId(start, id) :: id in Targets(start, recipients[..i])
      {
        var id := recipients[i];
        assert recipients[..i + 1][..i] == recipients[..i];
        ghost var before := Targets(start, recipients[..i]);
        if id > 0 && id !in seen {
          seen := seen + {id};
          if id in destinations && destinations[id].Active() {
            EnqueuedSnoc(start, before, id, 0, decodable, now);
            InsertRow(id, 0, decodable, now);
          }
        }
      }
      assert recipients[..|recipients|] == recipients;
    }

    /** The digest of a recorded batch, for every active destination whose rules match
        one of its changes. Destinations with equal keys share one rendered payload;
        every row still carries exactly the changes its own rules route. */
    method RecordDigest(batchGeneration: int, rulesOf: int -> NormalRules, changes: seq<Change>, now: int)
      returns (payloads: map<int, seq<Change>>)
      modifies this`rows, this`nextRow, this`batches, this`nextBatch
      ensures State() == RecordBatch(old(State()), batchGeneration,
          Matching(ActiveIds(old(State())), rulesOf, changes), now)
      ensures forall row | row in payloads ::
          row in rows && payloads[row] == Routed(rulesOf(rows[row].destination), changes) != []
      ensures forall row | row in rows && row >= old(nextRow) :: row in payloads || row in old(rows)
    {
      hide Enqueued, Ordered, Routed, Rendered;
      payloads := map[];
      if batchGeneration != generation { return; }
      ghost var start := State();
      var batch := nextBatch;
      batches, nextBatch := batches[batch := batchGeneration], nextBatch + 1;
      ghost var stored := State();
      var targets := Ordered(set id | id in destinations && destinations[id].Active());
      assert targets == Ordered(ActiveIds(start));
      OrderedCovers(ActiveIds(start));
      var cache: map<string, seq<Change>> := map[];
      NothingRendered(changes);
      ghost var chosen: seq<int> := [];
      NoneEnqueued(stored, batch, true, now);
      for i := 0 to |targets|
        invariant State() == Enqueued(stored, chosen, batch, true, now)
        invariant Ascending(chosen) && forall id ::
            id in chosen <==> id in targets[..i] && Routed(rulesOf(id), changes) != []
        invariant Rendered(cache, changes)
        invariant forall row | row in payloads ::
            row in rows && payloads[row] == Routed(rulesOf(rows[row].destination), changes) != [] && row < nextRow
        invariant forall row | row in rows && row >= start.nextRow :: row in payloads || row in start.rows
        invariant nextRow >= start.nextRow
      {
        var payload;
        payload, cache := Render(rulesOf(targets[i]), changes, cache);
        assert targets[..i + 1] == targets[..i] + [targets[i]];
        if payload != [] {
          forall j | 0 <= j < |chosen| ensures chosen[j] < targets[i] {
            ghost var earlier := chosen[j];
            assert earlier in chosen && earlier in targets[..i];
            var k :| 0 <= k < i && targets[k] == chosen[j];
          }
          EnqueuedSnoc(stored, chosen, targets[i], batch, true, now);
          payloads := payloads[nextRow := payload];
          InsertRow(targets[i], batch, true, now);
          chosen := chosen + [targets[i]];
        }
      }
      assert targets[..|targets|] == targets;
      ghost var matching := Matching(ActiveIds(start), rulesOf, changes);
      ghost var wanted := Ordered(ActiveIds(start) * matching);
      OrderedCovers(ActiveIds(start) * matching);
      OrderedUnique(chosen, wanted);
    }

    // ---------------------------------------------------------------- claim

    /** Lapsed leases, overdue rows, the due prefix of every destination, unreadable
        destinations, then one fresh lease token per remaining row. */
    method ClaimDueOutbox(limit: int, lease: int, now: int) returns (items: seq<Item>)
      modifies this`rows, this`nextToken
      ensures State() == Claimed(old(State()), limit, lease, now)
      ensures items == ClaimedItems(old(State()), limit, lease, now)
    {
      hide Readable, FirstIds, LeaseAll, Refreshed, Due, Sealed;
      ghost var start := State();
      Refresh(now);
      ghost var current := State();
      var selected := FirstIds(DueNow(now), ClaimLimit(limit));
      forall id | id in selected ensures id in rows { DueIsPending(current, now, id); }
      var ids, unreadable := SplitReadable(selected);
      DeadLetterUnreadable(unreadable, now);
      ghost var open := State();
      ghost var next := WithoutSealed(current, selected, now);
      assert open.rows.Keys == next.rows.Keys;
      forall id | id in open.rows ensures open.rows[id] == next.rows[id] {
        assert id in unreadable <==> id in selected && Sealed(current, id);
      }
      assert open == next;
      LeaseRows(ids, now + LeaseTime(lease));
      items := Items(ids);
    }

    /** Lapsed leases return to pending and overdue rows are dead-lettered. */
    method Refresh(now: int)
      modifies this`rows
      ensures State() == Refreshed(old(State()), now)
    {
      hide Lapsed, Buried;
      rows := map id | id in rows :: Lapsed(rows[id], now);
      rows := map id | id in rows :: Buried(rows[id], now);
      assert rows == Refreshed(old(State()), now).rows;
    }

    function DueNow(now: int): (r: set<int>)
      reads this
      ensures r == Due(State(), now)
    {
      set id | id in rows && rows[id].status == Pending && rows[id].nextAttempt <= now
            && rows[id].destination in destinations && destinations[rows[id].destination].Active()
            && !exists p | p in rows :: p < id && rows[p].destination == rows[id].destination && HoldsBack(rows[p], now)
    }

    method SplitReadable(selected: seq<int>) returns (ids: seq<int>, unreadable: set<int>)
      requires forall id | id in selected :: id in rows
      ensures ids == Readable(State(), selected)
      ensures forall id :: id in unreadable <==> id in selected && Sealed(State(), id)
    {
      hide Readable;
      ids, unreadable := [], {};
      ghost var box := State();
      NoneReadable(box);
      for i := 0 to |selected|
        invariant ids == Readable(box, selected[..i])
        invariant forall id :: id in unreadable <==> id in selected[..i] && Sealed(box, id)
      {
        var id := selected[i];
        ReadableSnoc(box, selected[..i], id);
        assert selected[..i + 1] == selected[..i] + [id] && id in selected;
        var destination := rows[id].destination;
        if destination in destinations && !destinations[destination].readable {
          unreadable := unreadable + {id};
        } else {
          ids := ids + [id];
        }
      }
      assert selected[..|selected|] == selected;
    }

    /** A fresh token for every row, in order. */
    method LeaseRows(ids: seq<int>, until: int)
      requires forall id | id in ids :: id in rows
      modifies this`rows, this`nextToken
      ensures State() == LeaseAll(old(State()), ids, until)
    {
      hide LeaseAll;
      ghost var open := State();
      NoneLeased(open, until);
      for i := 0 to |ids|
        invariant State() == LeaseAll(open, ids[..i], until)
      {
        var id := ids[i];
        assert ids[..i + 1] == ids[..i] + [id] && id in ids;
        LeaseSnoc(open, ids[..i], id, until);
        rows := rows[id := Leased(rows[id], nextToken, until)];
        nextToken := nextToken + 1;
      }
      assert ids[..|ids|] == ids;
    }

    method Items(ids: seq<int>) returns (items: seq<Item>)
      requires forall i | 0 <= i < |ids| :: ids[i] in rows
      ensures items == ItemsOf(State(), ids)
    {
      items := [];
      for i := 0 to |ids|
        invariant items == ItemsOf(State(), ids)[..i]
      {
        items := items + [ItemOf(rows[ids[i]], ids[i])];
      }
    }

    method DeadLetterUnreadable(unreadable: set<int>, now: int)
      modifies this`rows
      ensures rows == map id | id in old(rows) ::
        if id in unreadable && old(rows)[id].status == Pending then
          old(rows)[id].Unleased(Dead).(nextAttempt := now, note := UrlUnreadable)
        else old(rows)[id]
    {
      rows := map id | id in rows ::
        if id in unreadable && rows[id].status == Pending then
          rows[id].Unleased(Dead).(nextAttempt := now, note := UrlUnreadable)
        else rows[id];
    }

    // ---------------------------------------------------------------- finishing

    /** `owned` reports whether the token still owned the row. */
    method FinishClaimed(item: Item, ending: Ending) returns (owned: bool)
      modifies this`rows
      ensures owned <==> Owns(old(State()), item.id, item.token)
      ensures State() == Finished(old(State()), item.id, item.token, ending)
    {
      owned := item.id in rows && item.token != 0 && rows[item.id].status == Processing
          && rows[item.id].token == item.token;
      if owned {
        rows := rows[item.id := Ended(rows[item.id], ending)];
      }
    }

    method RenewClaimed(item: Item, lease: int, now: int) returns (owned: bool)
      modifies this`rows
      ensures owned <==> Owns(old(State()), item.id, item.token)
      ensures State() == Renewed(old(State()), item.id, item.token, lease, now)
      ensures owned <==> Owns(State(), item.id, item.token)
    {
      owned := item.id in rows && item.token != 0 && rows[item.id].status == Processing
          && rows[item.id].token == item.token;
      if owned {
        rows := rows[item.id := rows[item.id].(leaseUntil := Some(now + LeaseTime(lease)))];
      }
    }

    // ---------------------------------------------------------------- destinations and identity

    method Silence(destination: int, note: Note)
      modifies this`rows
      ensures State() == Silenced(old(State()), destination, note)
      ensures forall row | row in rows && rows[row].destination == destination :: !rows[row].Live()
    {
      rows := map id | id in rows ::
        if rows[id].destination == destination && rows[id].Live() then rows[id].Unleased(Dead).(note := note)
        else rows[id];
    }

    /** 0 for an unknown or deleted destination. */
    method SaveDestination(id: int, enabled: bool) returns (saved: int)
      modifies this`rows, this`destinations, this`nextDestination
      ensures State() == SavedDestination(old(State()), id, enabled)
      ensures saved == (if id <= 0 then old(nextDestination)
          else if id in old(destinations) && !old(destinations)[id].deleted then id else 0)
    {
      hide Silenced;
      saved := id;
      if id > 0 {
        if !(id in destinations && !destinations[id].deleted) { return 0; }
      } else {
        saved, nextDestination := nextDestination, nextDestination + 1;
      }
      destinations := destinations[saved := Destination(enabled, false, true)];
      if !enabled { Silence(saved, DestinationDisabled); }
    }

    method SetDestinationEnabled(id: int, enabled: bool) returns (found: bool)
      modifies this`rows, this`destinations
      ensures found <==> id in old(destinations) && !old(destinations)[id].deleted
      ensures State() == EnabledDestination(old(State()), id, enabled)
      ensures found && !enabled ==> forall row | row in rows && rows[row].destination == id :: !rows[row].Live()
    {
      hide Silenced;
      found := id in destinations && !destinations[id].deleted;
      if !found { return; }
      destinations := destinations[id := destinations[id].(enabled := enabled)];
      if !enabled { Silence(id, DestinationDisabled); }
    }

    method DeleteDestination(id: int) returns (found: bool)
      modifies this`rows, this`destinations
      ensures found <==> id in old(destinations) && !old(destinations)[id].deleted
      ensures State() == DeletedDestination(old(State()), id)
      ensures found ==> forall row | row in rows && rows[row].destination == id :: !rows[row].Live()
    {
      hide Silenced;
      found := id in destinations && !destinations[id].deleted;
      if !found { return; }
      destinations := destinations[id := Destination(false, true, true)];
      Silence(id, DestinationRemoved);
    }

    method ChangeIdentity(now: int)
      modifies this`rows, this`generation
      ensures State() == ChangedIdentity(old(State()), now)
      ensures forall row | row in rows && rows[row].Live() :: !Outdated(State(), rows[row], generation)
    {
      generation := generation + 1;
      rows := map id | id in rows ::
        if rows[id].Live() && rows[id].batch != 0 && rows[id].batch in batches && batches[rows[id].batch] != generation
        then rows[id].Unleased(Dead).(nextAttempt := now, note := IdentityChanged)
        else rows[id];
      ghost var was, next := old(State()), ChangedIdentity(old(State()), now);
      assert rows.Keys == next.rows.Keys;
      forall id | id in rows ensures rows[id] == next.rows[id] {
        assert Outdated(was, was.rows[id], generation)
            <==> was.rows[id].batch != 0 && was.rows[id].batch in batches && batches[was.rows[id].batch] != generation;
      }
    }

    /** The number of requeued rows; None for a destination that is not active. */
    method RetryDeadOutbox(destination: int, now: int) returns (requeued: Option<nat>)
      modifies this`rows
      ensures requeued.Some? <==> ActiveId(old(State()), destination)
      ensures requeued.Some? ==> requeued.value == |Requeued(old(State()), destination)|
      ensures State() == RetriedDead(old(State()), destination, now)
    {
      if !(destination in destinations && destinations[destination].Active()) {
        assert rows == RetriedDead(State(), destination, now).rows;
        return None;
      }
      var again := set id | id in rows && rows[id].destination == destination
        && rows[id].status == Dead && rows[id].note != IdentityChanged
        && !(rows[id].batch != 0 && rows[id].batch in batches && batches[rows[id].batch] != generation);
      ghost var start := State();
      assert ActiveId(start, destination);
      forall id ensures id in again <==> id in Requeued(start, destination) {
        if id in rows {
          ghost var row := rows[id];
          assert Retryable(start, row) <==>
            row.status == Dead && row.note != IdentityChanged && !Outdated(start, row, generation);
        }
      }
      assert again == Requeued(start, destination);
      rows := map id | id in rows ::
        if id in again then rows[id].Unleased(Pending).(attempts := 0, firstAttempt := now, nextAttempt := now,
            note := NoNote, deliveredAt := 0)
        else rows[id];
      requeued := Some(|again|);
    }

    method DeadLetterOverdue(chosen: set<int>, now: int)
      modifies this`rows
      ensures State() == CleanedOverdue(old(State()), chosen, now)
    {
      rows := map id | id in rows :: if id in chosen && Overdue(rows[id], now) then Expiry(rows[id], now) else rows[id];
    }

    method DiscardFinished(chosen: set<int>, cutoff: int)
      modifies this`rows
      ensures State() == WithoutRows(old(State()), chosen, cutoff)
    {
      rows := rows - (set id | id in rows && id in chosen && Discardable(rows[id], cutoff));
    }
  }

  lemma NoneEnqueued(box: Box, batch: int, decodable: bool, now: int)
    ensures Enqueued(box, [], batch, decodable, now) == box
  {
  }

  lemma NoneLeased(box: Box, until: int)
    ensures LeaseAll(box, [], until) == box
  {
  }

  lemma NoneReadable(box: Box)
    ensures Readable(box, []) == []
  {
  }

  lemma ReadableSnoc(box: Box, ids: seq<int>, id: int)
    ensures Readable(box, ids + [id]) == Readable(box, ids) + (if Sealed(box, id) then [] else [id])
  {
    assert (ids + [id])[..|ids|] == ids;
  }

  lemma LeaseSnoc(box: Box, ids: seq<int>, id: int, until: int)
    requires id in box.rows && forall x | x in ids :: x in box.rows
    ensures forall x | x in ids + [id] :: x in box.rows
    ensures var before := LeaseAll(box, ids, until);
      LeaseAll(box, ids + [id], until) ==
        before.(rows := before.rows[id := Leased(before.rows[id], before.nextToken, until)],
            nextToken := before.nextToken + 1)
  {
    assert (ids + [id])[..|ids|] == ids;
  }

  method Filtered(rules: Rules, changes: seq<Change>) returns (out: seq<Change>)
    ensures out == Routed(rules, changes)
  {
    out := [];
    for i := 0 to |changes|
      invariant out == Routed(rules, changes[..i])
    {
      assert changes[..i + 1][..i] == changes[..i];
      if rules.Matches(changes[i]) { out := out + [changes[i]]; }
    }
    assert changes[..|changes|] == changes;
  }

  // ---------------------------------------------------------------- the worker

  /** One turn of the worker: hold the current item back, or send it and record the outcome. */
  function Turn(e: Engine, outcome: Outcome, now: int, delay: int, written: bool): Engine
    requires e.worker.Working? && !e.worker.sending && e.worker.at < |e.worker.items|
  {
    if Holding(e.worker) then OutboxOrder.Held(e, written)
    else OutboxOrder.Settled(e.(worker := e.worker.(sending := true)), outcome, now, delay, written)
  }

  /** A turn is one or two steps of the interleaved model. */
  lemma TurnIsPlay(e: Engine, outcome: Outcome, now: int, delay: int, written: bool)
    requires e.worker.Working? && !e.worker.sending && e.worker.at < |e.worker.items|
    ensures Turn(e, outcome, now, delay, written) ==
      if Holding(e.worker) then Play(e, [Hold(written)]) else Play(e, [Hand, Settle(outcome, now, delay, written)])
  {
    hide Finished;
    var two := [Hand, Settle(outcome, now, delay, written)];
    if Holding(e.worker) {
      PlayOne(e, Hold(written));
    } else {
      assert two[1..] == [two[1]];
      PlayOne(Perform(e, Hand), two[1]);
    }
  }

  lemma PlayOne(e: Engine, action: Action)
    ensures Play(e, [action]) == Perform(e, action)
  {
    hide Perform;
    assert [action][1..] == [];
  }

  /** The environment of one item: what the provider answers, when, the backoff, and
      whether the bookkeeping transaction commits. */
  datatype Circumstance = Circumstance(outcome: Outcome, now: int, delay: int, written: bool)

  function Turns(e: Engine, around: seq<Circumstance>): (r: Engine)
    requires e.worker.Working? && !e.worker.sending && e.worker.at + |around| <= |e.worker.items|
    ensures r.worker.Working? && !r.worker.sending && r.worker.items == e.worker.items
        && r.worker.at == e.worker.at + |around|
  {
    if around == [] then e
    else
      var c := around[|around| - 1];
      Turn(Turns(e, around[..|around| - 1]), c.outcome, c.now, c.delay, c.written)
  }

  class DeliveryWorker {
    const store: Outbox
    var failed: set<int>
    var accepted: set<int>

    constructor (store: Outbox)
      ensures this.store == store && failed == {} && accepted == {}
    {
      this.store := store;
      failed, accepted := {}, {};
    }

    ghost function Progress(items: seq<Item>, at: nat, sent: set<int>): Engine
      reads this, store
    {
      Engine(store.State(), Working(items, at, false, failed), sent + accepted, map[])
    }

    method ReleaseItem(item: Item, written: bool)
      modifies store`rows
      ensures store.State() == if written then Finished(old(store.State()), item.id, item.token, Release)
          else old(store.State())
    {
      if written {
        var released := store.FinishClaimed(item, Release);
      }
    }

    /** Sends one item and records the outcome; reports whether the destination was
        contacted and the send failed. */
    method DeliverItem(item: Item, c: Circumstance) returns (sendFailed: bool)
      modifies this`accepted, store`rows
      ensures sendFailed <==> SendFails(item, c.outcome)
      ensures accepted == if item.decodable && c.outcome.Accepted? then old(accepted) + {item.id} else old(accepted)
      ensures store.State() ==
        if c.written then Finished(old(store.State()), item.id, item.token, EndingOf(item, c.outcome, c.now, c.delay))
        else old(store.State())
    {
      hide Finished;
      if item.decodable && c.outcome.Accepted? {
        accepted := accepted + {item.id};
        if c.written {
          var completed := store.FinishClaimed(item, Complete(c.now));
        }
        return false;
      }
      sendFailed := item.decodable;
      var permanent := !item.decodable || c.outcome.permanent;
      var dead := c.now - item.firstAttempt >= RETRY_WINDOW || permanent;
      if c.written {
        var requeued := store.FinishClaimed(item, Retry(c.now + c.delay, dead));
      }
    }

    /** One claimed batch: after the first failed send of a destination its younger items
        are returned unsent. */
    method DeliverBatch(items: seq<Item>, around: seq<Circumstance>, ghost sent: set<int>)
      requires |around| == |items| && failed == {} && accepted == {}
      modifies this`failed, this`accepted, store`rows
      ensures Progress(items, |items|, sent) == Turns(old(Progress(items, 0, sent)), around)
    {
      hide Finished;
      ghost var start := Progress(items, 0, sent);
      for i := 0 to |items|
        invariant Progress(items, i, sent) == Turns(start, around[..i])
      {
        assert around[..i + 1][..i] == around[..i];
        ghost var before := Progress(items, i, sent);
        if items[i].destination in failed {
          ReleaseItem(items[i], around[i].written);
        } else {
          var sendFailed := DeliverItem(items[i], around[i]);
          if sendFailed { failed := failed + {items[i].destination}; }
          assert sent + accepted == if items[i].decodable && around[i].outcome.Accepted? then
              before.sent + {items[i].id} else before.sent;
        }
        assert Progress(items, i + 1, sent) ==
            Turn(before, around[i].outcome, around[i].now, around[i].delay, around[i].written);
      }
      assert around[..|items|] == around;
    }
  }
}
