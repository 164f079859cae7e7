/** One collector of one settings generation: its snapshots, its recorded lifecycle
    events and its state row, and what each poll does to them. Resource IDs are numbers,
    so that primary-key order is their order.
 */
module ReconcileSpec {
  import opened Sets

  /** `shared` marks an external (shared) user. */
  datatype Resource = Resource(id: int, hash: string, shared: bool)

  datatype Stored = Stored(hash: string, missing: nat)

  datatype Event = Created(id: int) | Changed(id: int) | Removed(id: int)

  /** What the stored error text says; only the guard and the pending confirmation are
      ever read back. */
  datatype Note = Healthy | Guarded | PartialAnswer | UnsupportedOnce | UnsupportedTwice | FailedPoll

  /** Collectors that record every appearance and removal, the users collector, whose
      pre-existing shared users are absorbed once, and device details, which record none. */
  datatype Kind = Plain | Users | DeviceDetails

  /** `reports` says whether a stored and a new content differ in a comparable way: a
      pure change of upstream shape is absorbed. */
  datatype Config = Config(kind: Kind, reports: (string, string) -> bool)

  /** `known` is false until the collector has a state row; `scoped` records that shared
      users have been collected in this generation. */
  datatype State = State(snapshots: map<int, Stored>, events: seq<Event>,
                         known: bool, supported: bool, baseline: bool, failures: nat, note: Note, scoped: bool)

  const NEW := State(map[], [], false, false, false, 0, Healthy, false)

  datatype Poll = Answer(resources: seq<Resource>, partial: bool) | Unsupported | Failed

  function Ids(resources: seq<Resource>): (r: set<int>)
    ensures forall i | 0 <= i < |resources| :: resources[i].id in r
  {
    set i | 0 <= i < |resources| :: resources[i].id
  }

  // ---------------------------------------------------------------- upsert

  predicate Absorbs(cfg: Config, s: State) {
    cfg.kind == Users && s.baseline && !s.scoped
  }

  function Upserted(cfg: Config, s: State, r: Resource, baselined: bool, absorb: bool): State {
    if r.id !in s.snapshots then
      s.(snapshots := s.snapshots[r.id := Stored(r.hash, 0)],
         events := s.events + if baselined && cfg.kind != DeviceDetails && !(absorb && r.shared) then [Created(r.id)]
             else [])
    else
      var stored := s.snapshots[r.id].hash;
      s.(snapshots := s.snapshots[r.id := Stored(r.hash, 0)],
         events := s.events + if baselined && stored != r.hash && cfg.reports(stored, r.hash) then [Changed(r.id)]
             else [])
  }

  function UpsertedAll(cfg: Config, s: State, resources: seq<Resource>, baselined: bool, absorb: bool): State {
    if resources == [] then s
    else Upserted(cfg, UpsertedAll(cfg, s, resources[..|resources| - 1], baselined, absorb),
        resources[|resources| - 1], baselined, absorb)
  }

  // ---------------------------------------------------------------- guard and removal

  function Absent(s: State, seen: set<int>): set<int> {
    s.snapshots.Keys - seen
  }

  predicate Suspicious(s: State, seen: set<int>) {
    |Absent(s, seen)| >= 3 && |Absent(s, seen)| > |seen|
  }

  /** Every omitted resource was already missing from an earlier unguarded response. */
  predicate Confirmed(s: State, seen: set<int>) {
    Absent(s, seen) != {} && forall id | id in Absent(s, seen) :: s.snapshots[id].missing > 0
  }

  /** The guard holds removals back until two guarded responses are on record. */
  predicate Guards(s: State, seen: set<int>) {
    Suspicious(s, seen) && !Confirmed(s, seen) && (s.note != Guarded || s.failures < 2)
  }

  function Gone(s: State, seen: set<int>): set<int> {
    set id | id in Absent(s, seen) && s.snapshots[id].missing + 1 >= 2
  }

  function RemovedEvents(ids: seq<int>): (r: seq<Event>)
    ensures |r| == |ids| && forall i | 0 <= i < |r| :: r[i] == Removed(ids[i])
  {
    seq(|ids|, i requires 0 <= i < |ids| => Removed(ids[i]))
  }

  /** Omitted resources count one more miss, and leave on the second. */
  function Reconciled(cfg: Config, s: State, seen: set<int>, baselined: bool): State {
    var gone := Gone(s, seen);
    s.(snapshots := map id | id in s.snapshots && id !in gone ::
         if id in seen then s.snapshots[id] else s.snapshots[id].(missing := s.snapshots[id].missing + 1),
       events := s.events + if baselined && cfg.kind != DeviceDetails then RemovedEvents(Ordered(gone)) else [])
  }

  // ---------------------------------------------------------------- collector state

  function Succeeded(s: State): State {
    s.(known := true, supported := true, baseline := true, failures := 0, note := Healthy)
  }

  /** A partial answer is a usable baseline and leaves the failure count alone. */
  function PartiallySucceeded(s: State): State {
    s.(known := true, supported := true, baseline := true, failures := if s.known then s.failures
        else 1, note := PartialAnswer)
  }

  function HeldBack(s: State): State {
    s.(known := true, supported := true, failures := if s.known then s.failures + 1 else 1, note := Guarded)
  }

  /** A supported baseline is demoted only by the second unsupported answer in a row. */
  function NotSupported(s: State): State {
    if s.known && s.supported && s.baseline && s.note != UnsupportedOnce then s.(failures := 1, note := UnsupportedOnce)
    else s.(known := true, supported := false, note := UnsupportedTwice)
  }

  function Failing(s: State): State {
    s.(known := true, supported := true, failures := s.failures + 1, note := FailedPoll)
  }

  // ---------------------------------------------------------------- polls

  /** The state after the returned resources were stored. */
  function AfterUpserts(cfg: Config, s: State, resources: seq<Resource>): State {
    UpsertedAll(cfg, s.(scoped := s.scoped || cfg.kind == Users), resources, s.baseline, Absorbs(cfg, s))
  }

  /** What a poll does about the omitted resources and to the state row. */
  function Concluded(cfg: Config, stored: State, seen: set<int>, partial: bool, baselined: bool): State {
    if partial then PartiallySucceeded(stored)
    else if Guards(stored, seen) then HeldBack(stored)
    else if Absent(stored, seen) == {} then Succeeded(stored)
    else Succeeded(Reconciled(cfg, stored, seen, baselined))
  }

  function Answered(cfg: Config, s: State, resources: seq<Resource>, partial: bool): State {
    Concluded(cfg, AfterUpserts(cfg, s, resources), Ids(resources), partial, s.baseline)
  }

  function Next(cfg: Config, s: State, poll: Poll): State {
    match poll
    case Answer(resources, partial) => Answered(cfg, s, resources, partial)
    case Unsupported => NotSupported(s)
    case Failed => Failing(s)
  }

  function After(cfg: Config, s: State, polls: seq<Poll>): State {
    if polls == [] then s else Next(cfg, After(cfg, s, polls[..|polls| - 1]), polls[|polls| - 1])
  }
}
