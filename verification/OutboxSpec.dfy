/** The notification outbox as one value: rows, destinations, settings generation and
    the batches that digests belong to, and every transaction as a function. Times are
    whole seconds and always come from the caller.
 */
module OutboxSpec {
  import opened Crypto
  import opened Sets

  const RETRY_WINDOW := 24 * 3600
  const DEFAULT_LEASE := 120
  const DELIVERY_BATCH := 10

  datatype Status = Pending | Processing | Delivered | Dead

  datatype Note =
    NoNote | WindowExpired | UrlUnreadable | DestinationDisabled | DestinationRemoved | IdentityChanged | SendFailed

  /** `batch` is 0 for a system notification, `token` is 0 for the empty token.
      `decodable` says whether the payload can be prepared for sending. */
  datatype Row = Row(destination: int, batch: int, decodable: bool, status: Status, attempts: int, firstAttempt: int,
                     nextAttempt: int, leaseUntil: Option<int>, token: int, note: Note, createdAt: int,
                         deliveredAt: int) {
    predicate Live() { status == Pending || status == Processing }

    function Unleased(to: Status): Row {
      this.(status := to, leaseUntil := None, token := 0)
    }
  }

  /** `readable` says whether the service URL opens under the current master key. */
  datatype Destination = Destination(enabled: bool, deleted: bool, readable: bool) {
    predicate Active() { enabled && !deleted }
  }

  /** `batches` maps a stored change batch to its settings generation. Lease tokens are
      drawn from a counter: only their freshness matters. */
  datatype Box = Box(rows: map<int, Row>, nextRow: int, destinations: map<int, Destination>, nextDestination: int,
                     generation: int, batches: map<int, int>, nextBatch: int, nextToken: int)

  const EMPTY := Box(map[], 1, map[], 1, 1, map[], 1, 1)

  predicate ActiveId(box: Box, id: int) {
    id in box.destinations && box.destinations[id].Active()
  }

  // ---------------------------------------------------------------- enqueue

  function NewRow(destination: int, batch: int, decodable: bool, now: int): Row {
    Row(destination, batch, decodable, Pending, 0, now, now, None, 0, NoNote, now, 0)
  }

  /** One row per listed destination, in that order. */
  function Enqueued(box: Box, targets: seq<int>, batch: int, decodable: bool, now: int): Box {
    if targets == [] then box
    else
      var before := Enqueued(box, targets[..|targets| - 1], batch, decodable, now);
      before.(rows := before.rows[before.nextRow := NewRow(targets[|targets| - 1], batch, decodable, now)],
              nextRow := before.nextRow + 1)
  }

  function ActiveIds(box: Box): set<int> {
    set id | id in box.destinations && box.destinations[id].Active()
  }

  /** A system notification goes to every active destination. */
  function EnqueueSystem(box: Box, decodable: bool, now: int): Box {
    Enqueued(box, Ordered(ActiveIds(box)), 0, decodable, now)
  }

  /** The listed destinations that are active, each once. */
  function Targets(box: Box, listed: seq<int>): (r: seq<int>)
    ensures forall id | id in r :: ActiveId(box, id)
  {
    if listed == [] then []
    else
      var before := Targets(box, listed[..|listed| - 1]);
      var last := listed[|listed| - 1];
      if last > 0 && last !in before && ActiveId(box, last) then before + [last] else before
  }

  /** A targeted notification goes to the listed destinations that are active. */
  function EnqueueFor(box: Box, recipients: seq<int>, decodable: bool, now: int): Box {
    Enqueued(box, Targets(box, recipients), 0, decodable, now)
  }

  /** A recorded change batch fans out to the active destinations whose routing rules
      match one of its changes. A batch of an outdated generation is not recorded. */
  function RecordBatch(box: Box, generation: int, matching: set<int>, now: int): Box {
    if generation != box.generation then box
    else
      var stored := box.(batches := box.batches[box.nextBatch := generation], nextBatch := box.nextBatch + 1);
      Enqueued(stored, Ordered(ActiveIds(box) * matching), box.nextBatch, true, now)
  }

  // ---------------------------------------------------------------- claim

  /** A lease that ran out returns its row to pending. */
  function Lapsed(row: Row, now: int): Row {
    if row.status == Processing && (row.leaseUntil.None? || row.leaseUntil.value <= now) then row.Unleased(Pending)
    else row
  }

  function Expiry(row: Row, now: int): Row {
    row.Unleased(Dead).(nextAttempt := now, note := if row.note == NoNote then WindowExpired else row.note)
  }

  /** A pending row past the retry window is dead. */
  function Buried(row: Row, now: int): Row {
    if row.status == Pending && row.firstAttempt <= now - RETRY_WINDOW then Expiry(row, now) else row
  }

  function Refreshed(box: Box, now: int): Box {
    box.(rows := map id | id in box.rows :: Buried(Lapsed(box.rows[id], now), now))
  }

  /** An older row in flight or backing off holds back the younger ones of its destination. */
  predicate HoldsBack(row: Row, now: int) {
    row.status == Processing || (row.status == Pending && row.nextAttempt > now)
  }

  predicate Held(box: Box, now: int, id: int)
    requires id in box.rows
  {
    exists p | p in box.rows ::
        p < id && box.rows[p].destination == box.rows[id].destination && HoldsBack(box.rows[p], now)
  }

  function Due(box: Box, now: int): set<int> {
    set id | id in box.rows && box.rows[id].status == Pending && box.rows[id].nextAttempt <= now
          && ActiveId(box, box.rows[id].destination) && !Held(box, now, id)
  }

  /** What the worker holds of a claimed row. */
  datatype Item = Item(id: int, token: int, destination: int, firstAttempt: int, attempts: int, decodable: bool)

  predicate Sealed(box: Box, id: int) {
    id in box.rows && box.rows[id].destination in box.destinations
        && !box.destinations[box.rows[id].destination].readable
  }

  /** The selected rows whose service URL opens, in order. */
  function Readable(box: Box, ids: seq<int>): (r: seq<int>)
    ensures forall id :: id in r <==> id in ids && !Sealed(box, id)
    ensures |r| <= |ids|
  {
    if ids == [] then []
    else
      var last := ids[|ids| - 1];
      assert ids == ids[..|ids| - 1] + [last];
      Readable(box, ids[..|ids| - 1]) + (if Sealed(box, last) then [] else [last])
  }

  /** The selected rows whose service URL does not open are dead. */
  function WithoutSealed(box: Box, ids: seq<int>, now: int): Box {
    box.(rows := map id | id in box.rows ::
      if id in ids && Sealed(box, id) && box.rows[id].status == Pending then
          box.rows[id].Unleased(Dead).(nextAttempt := now, note := UrlUnreadable)
      else box.rows[id])
  }

  function Leased(row: Row, token: int, until: int): Row {
    row.(status := Processing, attempts := row.attempts + 1, leaseUntil := Some(until), token := token)
  }

  function LeaseAll(box: Box, ids: seq<int>, until: int): (r: Box)
    requires forall id | id in ids :: id in box.rows
    ensures r.rows.Keys == box.rows.Keys
  {
    if ids == [] then box
    else
      var before := LeaseAll(box, ids[..|ids| - 1], until);
      var last := ids[|ids| - 1];
      before.(rows := before.rows[last := Leased(before.rows[last], before.nextToken, until)],
          nextToken := before.nextToken + 1)
  }

  function ItemOf(row: Row, id: int): Item {
    Item(id, row.token, row.destination, row.firstAttempt, row.attempts, row.decodable)
  }

  function ItemsOf(box: Box, ids: seq<int>): (r: seq<Item>)
    requires forall i | 0 <= i < |ids| :: ids[i] in box.rows
    ensures |r| == |ids| && forall i | 0 <= i < |ids| :: r[i] == ItemOf(box.rows[ids[i]], ids[i])
  {
    seq(|ids|, i requires 0 <= i < |ids| => ItemOf(box.rows[ids[i]], ids[i]))
  }

  function ClaimLimit(limit: int): (r: nat)
    ensures 1 <= r <= 64
  {
    if limit <= 0 then 10 else if limit > 64 then 64 else limit
  }

  function LeaseTime(lease: int): (r: int)
    ensures r >= 1
  {
    if lease >= 1 then lease else DEFAULT_LEASE
  }

  /** The rows one claim selects, oldest first. */
  function Selected(box: Box, limit: int, now: int): seq<int> {
    FirstIds(Due(Refreshed(box, now), now), ClaimLimit(limit))
  }

  function ClaimedIds(box: Box, limit: int, now: int): (r: seq<int>)
    ensures forall id | id in r :: id in box.rows
  {
    Readable(Refreshed(box, now), Selected(box, limit, now))
  }

  function Claimed(box: Box, limit: int, lease: int, now: int): Box {
    var current := Refreshed(box, now);
    LeaseAll(WithoutSealed(current, Selected(box, limit, now), now), ClaimedIds(box, limit, now),
        now + LeaseTime(lease))
  }

  function ClaimedItems(box: Box, limit: int, lease: int, now: int): seq<Item> {
    ItemsOf(Claimed(box, limit, lease, now), ClaimedIds(box, limit, now))
  }

  // ---------------------------------------------------------------- finishing a claim

  /** The fence: the row is in flight under exactly this token. */
  predicate Owns(box: Box, id: int, token: int) {
    id in box.rows && token != 0 && box.rows[id].status == Processing && box.rows[id].token == token
  }

  datatype Ending = Complete(at: int) | Retry(next: int, dead: bool) | Release

  function Ended(row: Row, ending: Ending): Row {
    match ending
    case Complete(at) => row.Unleased(Delivered).(deliveredAt := at, note := NoNote)
    case Retry(next, dead) => row.Unleased(if dead then Dead else Pending).(nextAttempt := next, note := SendFailed)
    case Release => row.Unleased(Pending).(attempts := if row.attempts > 0 then row.attempts - 1 else 0)
  }

  function Finished(box: Box, id: int, token: int, ending: Ending): Box {
    if Owns(box, id, token) then box.(rows := box.rows[id := Ended(box.rows[id], ending)]) else box
  }

  function Renewed(box: Box, id: int, token: int, lease: int, now: int): Box {
    if Owns(box, id, token) then box.(rows := box.rows[id := box.rows[id].(leaseUntil := Some(now + LeaseTime(lease)))])
    else box
  }

  // ---------------------------------------------------------------- destinations and identity

  /** Live rows of a destination are dead-lettered without touching their schedule. */
  function Silenced(box: Box, destination: int, note: Note): Box {
    box.(rows := map id | id in box.rows ::
      if box.rows[id].destination == destination && box.rows[id].Live() then box.rows[id].Unleased(Dead).(note := note)
      else box.rows[id])
  }

  /** Destination 0 creates one; an unknown or deleted one is an error that changes nothing. */
  function SavedDestination(box: Box, id: int, enabled: bool): Box {
    if id > 0 && !(id in box.destinations && !box.destinations[id].deleted) then box
    else
      var target := if id > 0 then id else box.nextDestination;
      var saved := box.(destinations := box.destinations[target := Destination(enabled, false, true)],
                        nextDestination := if id > 0 then box.nextDestination else box.nextDestination + 1);
      if enabled then saved else Silenced(saved, target, DestinationDisabled)
  }

  function EnabledDestination(box: Box, id: int, enabled: bool): Box {
    if !(id in box.destinations && !box.destinations[id].deleted) then box
    else
      var set0 := box.(destinations := box.destinations[id := box.destinations[id].(enabled := enabled)]);
      if enabled then set0 else Silenced(set0, id, DestinationDisabled)
  }

  function DeletedDestination(box: Box, id: int): Box {
    if !(id in box.destinations && !box.destinations[id].deleted) then box
    else Silenced(box.(destinations := box.destinations[id := Destination(false, true, true)]), id, DestinationRemoved)
  }

  /** A lost master key makes any stored URL unreadable. */
  function UnreadableDestination(box: Box, id: int): Box {
    if id in box.destinations then
      box.(destinations := box.destinations[id := box.destinations[id].(readable := false)])
    else box
  }

  predicate Outdated(box: Box, row: Row, generation: int) {
    row.batch != 0 && row.batch in box.batches && box.batches[row.batch] != generation
  }

  /** A new tailnet or OAuth client starts a new generation. */
  function ChangedIdentity(box: Box, now: int): Box {
    var generation := box.generation + 1;
    box.(generation := generation,
         rows := map id | id in box.rows ::
           if box.rows[id].Live() && Outdated(box, box.rows[id], generation)
           then box.rows[id].Unleased(Dead).(nextAttempt := now, note := IdentityChanged)
           else box.rows[id])
  }

  // ---------------------------------------------------------------- dead letters and retention

  predicate Retryable(box: Box, row: Row) {
    row.status == Dead && row.note != IdentityChanged && !Outdated(box, row, box.generation)
  }

  function Requeued(box: Box, destination: int): set<int> {
    if ActiveId(box, destination) then set id | id in box.rows && box.rows[id].destination == destination
        && Retryable(box, box.rows[id])
    else {}
  }

  function RetriedDead(box: Box, destination: int, now: int): Box {
    var again := Requeued(box, destination);
    box.(rows := map id | id in box.rows ::
      if id in again then box.rows[id].Unleased(Pending).(attempts := 0, firstAttempt := now, nextAttempt := now,
          note := NoNote, deliveredAt := 0)
      else box.rows[id])
  }

  predicate Overdue(row: Row, now: int) {
    && row.Live() && row.firstAttempt <= now - RETRY_WINDOW
    && (row.status == Pending || row.leaseUntil.None? || row.leaseUntil.value <= now)
  }

  /** The cleanup pass buries overdue rows, as many as its budget allows. */
  function CleanedOverdue(box: Box, chosen: set<int>, now: int): Box {
    box.(rows := map id | id in box.rows ::
        if id in chosen && Overdue(box.rows[id], now) then Expiry(box.rows[id], now) else box.rows[id])
  }

  predicate Discardable(row: Row, cutoff: int) {
    (row.status == Delivered && row.deliveredAt < cutoff) || (row.status == Dead && row.createdAt < cutoff)
  }

  function Discarded(box: Box, chosen: set<int>, cutoff: int): set<int> {
    set id | id in box.rows && id in chosen && Discardable(box.rows[id], cutoff)
  }

  function WithoutRows(box: Box, chosen: set<int>, cutoff: int): Box {
    box.(rows := box.rows - Discarded(box, chosen, cutoff))
  }

  function WithoutBatches(box: Box, chosen: set<int>): Box {
    box.(batches := box.batches - chosen)
  }

  // ---------------------------------------------------------------- runs

  datatype Step =
    | System(decodable: bool, now: int)
    | Targeted(recipients: seq<int>, decodable: bool, now: int)
    | Batch(generation: int, matching: set<int>, now: int)
    | Claim(limit: int, lease: int, now: int)
    | Finish(id: int, token: int, ending: Ending)
    | Renew(id: int, token: int, lease: int, now: int)
    | Save(destination: int, enabled: bool)
    | Enable(destination: int, enabled: bool)
    | Delete(destination: int)
    | LoseKey(destination: int)
    | ChangeIdentity(now: int)
    | RetryDead(destination: int, now: int)
    | CleanOverdue(chosen: set<int>, now: int)
    | DropRows(chosen: set<int>, cutoff: int)
    | DropBatches(chosen: set<int>)

  function Apply(box: Box, step: Step): Box {
    match step
    case System(decodable, now) => EnqueueSystem(box, decodable, now)
    case Targeted(recipients, decodable, now) => EnqueueFor(box, recipients, decodable, now)
    case Batch(generation, matching, now) => RecordBatch(box, generation, matching, now)
    case Claim(limit, lease, now) => Claimed(box, limit, lease, now)
    case Finish(id, token, ending) => Finished(box, id, token, ending)
    case Renew(id, token, lease, now) => Renewed(box, id, token, lease, now)
    case Save(destination, enabled) => SavedDestination(box, destination, enabled)
    case Enable(destination, enabled) => EnabledDestination(box, destination, enabled)
    case Delete(destination) => DeletedDestination(box, destination)
    case LoseKey(destination) => UnreadableDestination(box, destination)
    case ChangeIdentity(now) => ChangedIdentity(box, now)
    case RetryDead(destination, now) => RetriedDead(box, destination, now)
    case CleanOverdue(chosen, now) => CleanedOverdue(box, chosen, now)
    case DropRows(chosen, cutoff) => WithoutRows(box, chosen, cutoff)
    case DropBatches(chosen) => WithoutBatches(box, chosen)
  }

  function Run(box: Box, steps: seq<Step>): Box
    decreases |steps|
  {
    if steps == [] then box else Run(Apply(box, steps[0]), steps[1..])
  }
}
