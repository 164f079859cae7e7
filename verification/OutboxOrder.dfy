/** One delivery worker against every other transaction: what has happened to the older
    notifications of a destination when one of them is handed to the sender.
 */
module OutboxOrder {
  import opened Crypto
  import opened Sets
  import opened OutboxSpec
  import opened OutboxSafety

  /** The claimed items, the position reached, whether that item is with the sender, and
      the destinations whose send failed in this batch. */
  datatype Worker = Idle | Working(items: seq<Item>, at: nat, sending: bool, failed: set<int>)

  /** The outbox, its worker, the rows a provider accepted, and the rows that retention
      discarded. */
  datatype Engine = Engine(box: Box, worker: Worker, sent: set<int>, gone: map<int, Row>)

  const STARTED := Engine(EMPTY, Idle, {}, map[])

  datatype Outcome = Accepted | Refused(permanent: bool)

  /** `written` is false when the bookkeeping transaction failed. */
  datatype Action =
    | Other(step: Step)
    | Tick(lease: int, now: int)
    | Hand
    | Settle(outcome: Outcome, now: int, delay: int, written: bool)
    | Hold(written: bool)
    | Crash

  /** Everything but the worker's own transactions and the manual dead-letter retry. */
  predicate Background(step: Step) {
    !step.Claim? && !step.Finish? && !step.RetryDead?
  }

  predicate Resting(w: Worker) {
    w.Idle? || (!w.sending && w.at >= |w.items|)
  }

  predicate Handing(w: Worker) {
    w.Working? && !w.sending && w.at < |w.items| && w.items[w.at].destination !in w.failed
  }

  predicate Holding(w: Worker) {
    w.Working? && !w.sending && w.at < |w.items| && w.items[w.at].destination in w.failed
  }

  predicate InFlight(w: Worker) {
    w.Working? && w.sending && w.at < |w.items|
  }

  /** How the worker records the outcome of one send. A payload that cannot be prepared
      never reaches the provider and can never succeed. */
  function EndingOf(item: Item, outcome: Outcome, now: int, delay: int): Ending {
    if !item.decodable then Retry(now + delay, true)
    else match outcome
      case Accepted => Complete(now)
      case Refused(permanent) => Retry(now + delay, now - item.firstAttempt >= RETRY_WINDOW || permanent)
  }

  /** A failed send holds back the destination's younger items; an unprepared one does not. */
  predicate SendFails(item: Item, outcome: Outcome) {
    item.decodable && outcome.Refused?
  }

  function Moved(w: Worker, failed: set<int>): Worker
    requires w.Working?
  {
    Working(w.items, w.at + 1, false, failed)
  }

  function Settled(e: Engine, outcome: Outcome, now: int, delay: int, written: bool): Engine
    requires InFlight(e.worker)
  {
    var item := e.worker.items[e.worker.at];
    var failed := if SendFails(item, outcome) then e.worker.failed + {item.destination} else e.worker.failed;
    e.(box := if written then Finished(e.box, item.id, item.token, EndingOf(item, outcome, now, delay)) else e.box,
       worker := Moved(e.worker, failed),
       sent := if item.decodable && outcome.Accepted? then e.sent + {item.id} else e.sent)
  }

  function Held(e: Engine, written: bool): Engine
    requires Holding(e.worker)
  {
    var item := e.worker.items[e.worker.at];
    e.(box := if written then Finished(e.box, item.id, item.token, Release) else e.box,
       worker := Moved(e.worker, e.worker.failed))
  }

  function Perform(e: Engine, action: Action): Engine {
    match action
    case Other(step) =>
      if !Background(step) then e
      else
        var next := Apply(e.box, step);
        e.(box := next, gone := e.gone + (e.box.rows - next.rows.Keys))
    case Tick(lease, now) =>
      if !Resting(e.worker) then e
      else e.(box := Claimed(e.box, DELIVERY_BATCH, lease, now),
          worker := Working(ClaimedItems(e.box, DELIVERY_BATCH, lease, now), 0, false, {}))
    case Hand => if Handing(e.worker) then e.(worker := e.worker.(sending := true)) else e
    case Settle(outcome, now, delay, written) =>
      if InFlight(e.worker) then Settled(e, outcome, now, delay, written) else e
    case Hold(written) => if Holding(e.worker) then Held(e, written) else e
    case Crash => e.(worker := Idle)
  }

  function Play(e: Engine, actions: seq<Action>): Engine
    decreases |actions|
  {
    if actions == [] then e else Play(Perform(e, actions[0]), actions[1..])
  }

  // ---------------------------------------------------------------- the order invariant

  predicate Known(e: Engine, id: int) {
    id in e.box.rows || id in e.gone
  }

  /** The row as stored, or as it was when it was discarded. */
  function RowOf(e: Engine, id: int): Row
    requires Known(e, id)
  {
    if id in e.box.rows then e.box.rows[id] else e.gone[id]
  }

  /** Sent successfully, dead, or with a payload that cannot be prepared. */
  predicate Done(e: Engine, id: int) {
    id in e.sent || (Known(e, id) && (RowOf(e, id).status == Dead || !RowOf(e, id).decodable))
  }

  predicate Ahead(items: seq<Item>, from: nat, to: nat, id: int) {
    exists m | from <= m < to && m < |items| :: items[m].id == id
  }

  /** Everything older for the same destination is done, or waits earlier in the batch. */
  ghost predicate OlderDone(e: Engine, k: nat)
    requires e.worker.Working? && k < |e.worker.items|
  {
    var item := e.worker.items[k];
    forall id :: Known(e, id) && id < item.id && RowOf(e, id).destination == item.destination ==>
      Done(e, id) || Ahead(e.worker.items, e.worker.at, k, id)
  }

  predicate ItemMatches(e: Engine, item: Item) {
    Known(e, item.id) && RowOf(e, item.id).destination == item.destination
        && RowOf(e, item.id).decodable == item.decodable
  }

  ghost predicate BatchOk(e: Engine)
    requires e.worker.Working?
  {
    && (forall k | 0 <= k < |e.worker.items| :: ItemMatches(e, e.worker.items[k]))
    && (forall k | e.worker.at <= k < |e.worker.items| && e.worker.items[k].destination !in e.worker.failed ::
        OlderDone(e, k))
    && (e.worker.sending ==>
          e.worker.at < |e.worker.items| && e.worker.items[e.worker.at].destination !in e.worker.failed)
  }

  ghost predicate StoreOk(e: Engine) {
    && RowsBelow(e.box) && 0 < e.box.nextRow
    && (forall id | id in e.gone ::
        id < e.box.nextRow && id !in e.box.rows && (e.gone[id].status == Dead || id in e.sent))
    && (forall id | id in e.box.rows && e.box.rows[id].status == Delivered :: id in e.sent)
  }

  ghost predicate Orderly(e: Engine) {
    StoreOk(e) && (e.worker.Working? ==> BatchOk(e))
  }

  // ---------------------------------------------------------------- what other transactions keep

  predicate SameContent(a: Row, b: Row) {
    a.destination == b.destination && a.decodable == b.decodable
  }

  /** What a background transaction can do to the rows: it never completes one, never
      revives a dead one, never changes a row's content, and discards only rows that are
      delivered or dead. */
  ghost predicate Gentle(box: Box, next: Box) {
    && box.nextRow <= next.nextRow && RowsBelow(next)
    && (forall id | id in next.rows && id in box.rows ::
          && SameContent(box.rows[id], next.rows[id])
          && (next.rows[id].status == Delivered ==> box.rows[id].status == Delivered)
          && (box.rows[id].status == Dead ==> next.rows[id].status == Dead))
    && (forall id | id in next.rows && id !in box.rows :: box.nextRow <= id && next.rows[id].status != Delivered)
    && (forall id | id in box.rows && id !in next.rows :: !box.rows[id].Live())
  }

  lemma EnqueueGentle(box: Box, targets: seq<int>, batch: int, decodable: bool, now: int)
    requires RowsBelow(box)
    ensures Gentle(box, Enqueued(box, targets, batch, decodable, now))
  {
    hide Enqueued;
    EnqueuedKeepsRows(box, targets, batch, decodable, now);
  }

  lemma DestinationGentle(box: Box, step: Step)
    requires RowsBelow(box) && (step.Save? || step.Enable? || step.Delete? || step.LoseKey?)
    ensures Gentle(box, Apply(box, step))
  {
  }

  lemma RowsGentle(box: Box, step: Step)
    requires RowsBelow(box) && (step.Renew? || step.ChangeIdentity? || step.CleanOverdue? || step.DropRows?
        || step.DropBatches?)
    ensures Gentle(box, Apply(box, step))
  {
  }

  lemma BackgroundGentle(box: Box, step: Step)
    requires RowsBelow(box) && Background(step)
    ensures Gentle(box, Apply(box, step))
  {
    hide Enqueued, Targets, Ordered, Gentle;
    match step
    case System(decodable, now) => EnqueueGentle(box, Ordered(ActiveIds(box)), 0, decodable, now);
    case Targeted(recipients, decodable, now) => EnqueueGentle(box, Targets(box, recipients), 0, decodable, now);
    case Batch(generation, matching, now) => BatchGentle(box, generation, matching, now);
    case Save(destination, enabled) => DestinationGentle(box, step);
    case Enable(destination, enabled) => DestinationGentle(box, step);
    case Delete(destination) => DestinationGentle(box, step);
    case LoseKey(destination) => DestinationGentle(box, step);
    case _ => RowsGentle(box, step);
  }

  lemma BatchGentle(box: Box, generation: int, matching: set<int>, now: int)
    requires RowsBelow(box)
    ensures Gentle(box, RecordBatch(box, generation, matching, now))
  {
    hide Enqueued, Ordered;
    if generation == box.generation {
      var stored := box.(batches := box.batches[box.nextBatch := generation], nextBatch := box.nextBatch + 1);
      EnqueueGentle(stored, Ordered(ActiveIds(box) * matching), box.nextBatch, true, now);
    }
  }

  lemma DoneStays(e: Engine, next: Engine, id: int)
    requires StoreOk(e) && Gentle(e.box, next.box) && e.sent <= next.sent
    requires next.gone == e.gone + (e.box.rows - next.box.rows.Keys)
    requires Known(e, id)
    ensures Known(next, id) && SameContent(RowOf(e, id), RowOf(next, id)) && (Done(e, id) ==> Done(next, id))
  {
  }

  lemma NewIsYoung(e: Engine, next: Engine, id: int)
    requires StoreOk(e) && Gentle(e.box, next.box) && next.gone == e.gone + (e.box.rows - next.box.rows.Keys)
    requires Known(next, id) && !Known(e, id)
    ensures id >= e.box.nextRow
  {
  }

  lemma OtherKeeps(e: Engine, step: Step)
    requires Orderly(e) && Background(step)
    ensures Orderly(Perform(e, Other(step)))
  {
    hide Apply, Done, Ahead;
    var next := Perform(e, Other(step));
    BackgroundGentle(e.box, step);
    StoreStays(e, next);
    if e.worker.Working? {
      forall k | 0 <= k < |e.worker.items| ensures ItemMatches(next, e.worker.items[k]) {
        DoneStays(e, next, e.worker.items[k].id);
      }
      forall k | e.worker.at <= k < |e.worker.items| && e.worker.items[k].destination !in e.worker.failed
        ensures OlderDone(next, k)
      {
        OlderStays(e, next, k);
      }
    }
  }

  lemma StoreStays(e: Engine, next: Engine)
    requires StoreOk(e) && Gentle(e.box, next.box) && next.sent == e.sent
        && next.gone == e.gone + (e.box.rows - next.box.rows.Keys)
    ensures StoreOk(next)
  {
  }

  lemma OlderStays(e: Engine, next: Engine, k: nat)
    requires StoreOk(e) && Gentle(e.box, next.box) && e.sent <= next.sent
        && next.gone == e.gone + (e.box.rows - next.box.rows.Keys)
    requires e.worker.Working? && next.worker == e.worker && k < |e.worker.items| && ItemMatches(e, e.worker.items[k])
        && OlderDone(e, k)
    ensures OlderDone(next, k)
  {
    hide Done, Ahead, Gentle;
    var item := e.worker.items[k];
    assert item.id < e.box.nextRow;
    forall id | Known(next, id) && id < item.id && RowOf(next, id).destination == item.destination
      ensures Done(next, id) || Ahead(e.worker.items, e.worker.at, k, id)
    {
      if Known(e, id) { DoneStays(e, next, id); } else { NewIsYoung(e, next, id); assert false; }
    }
  }

  // ---------------------------------------------------------------- the worker's own steps

  /** A claim leaves no older live row behind. */
  lemma TickKeeps(e: Engine, lease: int, now: int)
    requires Orderly(e) && Resting(e.worker)
    ensures Orderly(Perform(e, Tick(lease, now)))
  {
    hide Claimed, ClaimedIds, WithoutSealed, Refreshed, Selected, Done, Ahead;
    var next := Perform(e, Tick(lease, now));
    var ids := ClaimedIds(e.box, DELIVERY_BATCH, now);
    ClaimStore(e, lease, now);
    ClaimedShape(e.box, DELIVERY_BATCH, lease, now);
    forall k | 0 <= k < |next.worker.items| ensures ItemMatches(next, next.worker.items[k]) && OlderDone(next, k) {
      ClaimOlderDone(e, lease, now, k);
    }
  }

  lemma ClaimRow(box: Box, lease: int, now: int, id: int)
    requires id in box.rows
    ensures var next := Claimed(box, DELIVERY_BATCH, lease, now);
      && id in next.rows && SameContent(box.rows[id], next.rows[id])
      && (next.rows[id].status == Delivered ==> box.rows[id].status == Delivered)
  {
    hide Claimed, ClaimedIds, Selected;
    ClaimedShape(box, DELIVERY_BATCH, lease, now);
    var ids := ClaimedIds(box, DELIVERY_BATCH, now);
    if id in ids { var i :| 0 <= i < |ids| && ids[i] == id; }
  }

  lemma ClaimStore(e: Engine, lease: int, now: int)
    requires StoreOk(e)
    ensures StoreOk(e.(box := Claimed(e.box, DELIVERY_BATCH, lease, now)))
  {
    hide Claimed, ClaimedIds, WithoutSealed, Refreshed, Selected;
    ClaimedShape(e.box, DELIVERY_BATCH, lease, now);
    forall id | id in e.box.rows ensures id in Claimed(e.box, DELIVERY_BATCH, lease, now).rows {
      ClaimRow(e.box, lease, now, id);
    }
    forall id | id in e.box.rows && Claimed(e.box, DELIVERY_BATCH, lease, now).rows[id].status == Delivered
      ensures id in e.sent
    {
      ClaimRow(e.box, lease, now, id);
    }
  }

  lemma ClaimOlderDone(e: Engine, lease: int, now: int, k: nat)
    requires StoreOk(e) && Resting(e.worker) && k < |ClaimedIds(e.box, DELIVERY_BATCH, now)|
    ensures var next := Perform(e, Tick(lease, now));
      k < |next.worker.items| && ItemMatches(next, next.worker.items[k]) && OlderDone(next, k)
  {
    hide Claimed, ClaimedIds, WithoutSealed, Refreshed, Selected;
    var next := Perform(e, Tick(lease, now));
    var ids := ClaimedIds(e.box, DELIVERY_BATCH, now);
    ClaimedShape(e.box, DELIVERY_BATCH, lease, now);
    ClaimStore(e, lease, now);
    var item := next.worker.items[k];
    assert item.id == ids[k] && ids[k] in ids;
    ClaimRow(e.box, lease, now, ids[k]);
    forall id | Known(next, id) && id < item.id && RowOf(next, id).destination == item.destination
      ensures Done(next, id) || Ahead(next.worker.items, 0, k, id)
    {
      if id in next.box.rows && next.box.rows[id].Live() {
        ClaimRow(e.box, lease, now, id);
        ClaimTakesPrefix(e.box, DELIVERY_BATCH, lease, now, ids[k], id);
        var m :| 0 <= m < |ids| && ids[m] == id;
        assert next.worker.items[m].id == id;
      }
    }
  }

  /** One bookkeeping write changes one row, and only a row whose send was accepted
      becomes delivered. */
  lemma FinishGentle(box: Box, id: int, token: int, ending: Ending)
    requires RowsBelow(box)
    ensures var next := Finished(box, id, token, ending);
      && next.nextRow == box.nextRow && next.rows.Keys == box.rows.Keys && RowsBelow(next)
      && (forall r | r in box.rows ::
            && SameContent(box.rows[r], next.rows[r])
            && (box.rows[r].status == Dead ==> next.rows[r].status == Dead)
            && (next.rows[r].status == Delivered ==> box.rows[r].status == Delivered || (r == id && ending.Complete?)))
  {
  }

  /** The worker moves past its current item, which is done or whose destination failed. */
  lemma MoveKeeps(e: Engine, next: Engine)
    requires Orderly(e) && e.worker.Working? && e.worker.at < |e.worker.items|
    requires next.gone == e.gone && e.sent <= next.sent && RowsBelow(next.box) && next.box.nextRow == e.box.nextRow
    requires next.box.rows.Keys == e.box.rows.Keys
    requires forall r | r in e.box.rows ::
      && SameContent(e.box.rows[r], next.box.rows[r])
      && (e.box.rows[r].status == Dead ==> next.box.rows[r].status == Dead)
      && (next.box.rows[r].status == Delivered ==> r in next.sent)
    requires next.worker.Working? && next.worker == Moved(e.worker, next.worker.failed)
        && e.worker.failed <= next.worker.failed
    requires var item := e.worker.items[e.worker.at]; item.destination in next.worker.failed || Done(next, item.id)
    ensures Orderly(next)
  {
    hide Done;
    var items, at := e.worker.items, e.worker.at;
    forall k | 0 <= k < |items| ensures ItemMatches(next, items[k]) { assert ItemMatches(e, items[k]); }
    forall k | at + 1 <= k < |items| && items[k].destination !in next.worker.failed ensures OlderDone(next, k) {
      assert OlderDone(e, k);
      forall id | Known(next, id) && id < items[k].id && RowOf(next, id).destination == items[k].destination
        ensures Done(next, id) || Ahead(items, at + 1, k, id)
      {
        MovedPast(e, next, k, id);
      }
    }
  }

  lemma MovedPast(e: Engine, next: Engine, k: nat, id: int)
    requires e.worker.Working? && e.worker.at < k < |e.worker.items|
    requires next.gone == e.gone && e.sent <= next.sent && next.box.rows.Keys == e.box.rows.Keys
    requires forall r | r in e.box.rows ::
      SameContent(e.box.rows[r], next.box.rows[r]) && (e.box.rows[r].status == Dead ==> next.box.rows[r].status == Dead)
    requires Known(e, id) && (Done(e, id) || Ahead(e.worker.items, e.worker.at, k, id))
    requires RowOf(e, id).destination == e.worker.items[k].destination && ItemMatches(e, e.worker.items[e.worker.at])
    requires Done(next, e.worker.items[e.worker.at].id)
        || e.worker.items[e.worker.at].destination != e.worker.items[k].destination
    ensures Done(next, id) || Ahead(e.worker.items, e.worker.at + 1, k, id)
  {
    if !Done(e, id) {
      var m :| e.worker.at <= m < k && e.worker.items[m].id == id;
    }
  }

  lemma SettleKeeps(e: Engine, outcome: Outcome, now: int, delay: int, written: bool)
    requires Orderly(e) && InFlight(e.worker)
    ensures Orderly(Settled(e, outcome, now, delay, written))
  {
    hide Finished, OlderDone;
    var item := e.worker.items[e.worker.at];
    var next := Settled(e, outcome, now, delay, written);
    FinishGentle(e.box, item.id, item.token, EndingOf(item, outcome, now, delay));
    assert ItemMatches(e, item);
    MoveKeeps(e, next);
  }

  lemma HoldKeeps(e: Engine, written: bool)
    requires Orderly(e) && Holding(e.worker)
    ensures Orderly(Held(e, written))
  {
    hide Finished, OlderDone;
    var item := e.worker.items[e.worker.at];
    FinishGentle(e.box, item.id, item.token, Release);
    MoveKeeps(e, Held(e, written));
  }

  lemma HandKeeps(e: Engine)
    requires Orderly(e) && Handing(e.worker)
    ensures Orderly(e.(worker := e.worker.(sending := true)))
  {
    hide Done, Ahead;
    var next := e.(worker := e.worker.(sending := true));
    forall k | 0 <= k < |e.worker.items|
      ensures ItemMatches(next, e.worker.items[k])
    {
      assert ItemMatches(e, e.worker.items[k]);
    }
    forall k | e.worker.at <= k < |e.worker.items| && e.worker.items[k].destination !in e.worker.failed
      ensures OlderDone(next, k)
    {
      assert OlderDone(e, k);
      forall id | Known(next, id) && id < e.worker.items[k].id
          && RowOf(next, id).destination == e.worker.items[k].destination
        ensures Done(next, id) || Ahead(e.worker.items, e.worker.at, k, id)
      {
        assert Known(e, id);
        DoneSame(e, next, id);
      }
    }
  }

  lemma DoneSame(e: Engine, next: Engine, id: int)
    requires next.box == e.box && next.gone == e.gone && next.sent == e.sent
    ensures Done(next, id) <==> Done(e, id)
  {
  }

  lemma PerformKeeps(e: Engine, action: Action)
    requires Orderly(e)
    ensures Orderly(Perform(e, action))
  {
    hide Apply, Claimed, ClaimedItems, Settled, Held, BatchOk;
    match action
    case Other(step) => if Background(step) { OtherKeeps(e, step); }
    case Tick(lease, now) => if Resting(e.worker) { TickKeeps(e, lease, now); }
    case Hand => if Handing(e.worker) { HandKeeps(e); }
    case Settle(outcome, now, delay, written) => if InFlight(e.worker) { SettleKeeps(e, outcome, now, delay, written); }
    case Hold(written) => if Holding(e.worker) { HoldKeeps(e, written); }
    case Crash =>
  }

  lemma {:induction false} PlayKeeps(e: Engine, actions: seq<Action>)
    requires Orderly(e)
    ensures Orderly(Play(e, actions))
    decreases |actions|
  {
    hide Orderly, Perform;
    if actions != [] {
      PerformKeeps(e, actions[0]);
      PlayKeeps(Perform(e, actions[0]), actions[1..]);
    }
  }

  /** In every run of one worker, with crashes, expired leases, failed bookkeeping and
      every other transaction interleaved but no manual dead-letter retry: when an item
      is handed to the sender, and while it is with the sender, every older row of its
      destination was sent successfully, is dead, or has a payload that cannot be
      prepared. */
  lemma HandedInOrder(actions: seq<Action>, id: int)
    requires var e := Play(STARTED, actions);
      && (Handing(e.worker) || InFlight(e.worker))
      && Known(e, id) && id < e.worker.items[e.worker.at].id
          && RowOf(e, id).destination == e.worker.items[e.worker.at].destination
    ensures Done(Play(STARTED, actions), id)
  {
    hide Play, Done;
    PlayKeeps(STARTED, actions);
    var e := Play(STARTED, actions);
    assert OlderDone(e, e.worker.at);
  }

  /** A manual dead-letter retry is outside the order: it reopens a dead row, whatever was
      handed over in the meantime. */
  lemma RetryReopens(e: Engine, destination: int, now: int, id: int)
    requires id in e.box.rows && e.box.rows[id].destination == destination && ActiveId(e.box, destination)
    requires Retryable(e.box, e.box.rows[id]) && e.box.rows[id].decodable && id !in e.sent
    ensures Done(e, id) && !Done(e.(box := Apply(e.box, RetryDead(destination, now))), id)
  {
  }
}
