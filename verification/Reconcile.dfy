/** Event log, safety and liveness of reconciliation over arbitrary poll sequences.
 */
module Reconcile {
  import opened Sets
  import opened ReconcileSpec

  predicate Contains(poll: Poll, id: int) {
    poll.Answer? && id in Ids(poll.resources)
  }

  /** The hash of the last entry of a response for a resource. */
  function HashIn(resources: seq<Resource>, id: int): string
    requires id in Ids(resources)
  {
    var last := resources[|resources| - 1];
    if last.id == id then last.hash else IdsSplit(resources); HashIn(resources[..|resources| - 1], id)
  }

  lemma IdsSplit(resources: seq<Resource>)
    requires resources != []
    ensures Ids(resources) == Ids(resources[..|resources| - 1]) + {resources[|resources| - 1].id}
  {
    var n := |resources| - 1;
    forall id | id in Ids(resources) ensures id in Ids(resources[..n]) + {resources[n].id} {
      var i :| 0 <= i < |resources| && resources[i].id == id;
      if i < n { assert resources[..n][i] == resources[i]; }
    }
    forall id | id in Ids(resources[..n]) ensures id in Ids(resources) {
      var i :| 0 <= i < n && resources[..n][i].id == id;
      assert resources[i].id == id;
    }
  }

  /** After the upserts: exactly the returned resources are stored with their own hash
      and no miss; everything else is untouched. */
  lemma {:induction false} UpsertShape(cfg: Config, s: State, resources: seq<Resource>, baselined: bool, absorb: bool)
    ensures var next := UpsertedAll(cfg, s, resources, baselined, absorb);
      && next == s.(snapshots := next.snapshots, events := next.events)
      && next.snapshots.Keys == s.snapshots.Keys + Ids(resources)
      && (forall id | id in Ids(resources) :: next.snapshots[id] == Stored(HashIn(resources, id), 0))
      && (forall id | id in s.snapshots && id !in Ids(resources) :: next.snapshots[id] == s.snapshots[id])
    decreases |resources|
  {
    hide Upserted, HashIn, Ids;
    if resources == [] {
      assert Ids(resources) == {} by { NoIds(resources); }
    } else {
      var n := |resources| - 1;
      UpsertShape(cfg, s, resources[..n], baselined, absorb);
      IdsSplit(resources);
      UpsertOneShape(cfg, UpsertedAll(cfg, s, resources[..n], baselined, absorb), resources[n], baselined, absorb);
      forall id | id in Ids(resources)
        ensures HashIn(resources, id) == if id == resources[n].id then resources[n].hash else HashIn(resources[..n], id)
      {
        HashInSnoc(resources, id);
      }
    }
  }

  lemma NoIds(resources: seq<Resource>)
    requires resources == []
    ensures Ids(resources) == {}
  {
  }

  lemma HashInSnoc(resources: seq<Resource>, id: int)
    requires id in Ids(resources)
    ensures resources != []
    ensures var n := |resources| - 1;
      && (id != resources[n].id ==> id in Ids(resources[..n]))
      && HashIn(resources, id) == if id == resources[n].id then resources[n].hash else HashIn(resources[..n], id)
  {
    IdsSplit(resources);
  }

  lemma UpsertOneShape(cfg: Config, s: State, r: Resource, baselined: bool, absorb: bool)
    ensures var next := Upserted(cfg, s, r, baselined, absorb);
      && next == s.(snapshots := next.snapshots, events := next.events)
      && next.snapshots == s.snapshots[r.id := Stored(r.hash, 0)]
  {
  }

  /** One answer, resource by resource. */
  lemma AnswerShape(cfg: Config, s: State, resources: seq<Resource>, partial: bool)
    ensures var stored := AfterUpserts(cfg, s, resources);
      var next := Answered(cfg, s, resources, partial);
      var seen := Ids(resources);
      var counts := !partial && !Guards(stored, seen);
      && stored.snapshots.Keys == s.snapshots.Keys + seen
      && (forall id | id in seen :: id in next.snapshots && next.snapshots[id] == Stored(HashIn(resources, id), 0))
      && (forall id | id in next.snapshots :: id in seen || id in s.snapshots)
      && (forall id | id in s.snapshots && id !in seen ::
            if !counts then id in next.snapshots && next.snapshots[id] == s.snapshots[id]
            else if s.snapshots[id].missing == 0 then id in next.snapshots
                && next.snapshots[id] == s.snapshots[id].(missing := 1)
            else id !in next.snapshots)
  {
    hide UpsertedAll, Guards, HashIn, Ids;
    var entry := s.(scoped := s.scoped || cfg.kind == Users);
    UpsertShape(cfg, entry, resources, s.baseline, Absorbs(cfg, s));
    ConcludedShape(cfg, AfterUpserts(cfg, s, resources), Ids(resources), partial, s.baseline);
  }

  /** What happens to the rows that the answer stored and to those it omitted. */
  lemma ConcludedShape(cfg: Config, stored: State, seen: set<int>, partial: bool, baselined: bool)
    ensures var next := Concluded(cfg, stored, seen, partial, baselined);
      var counts := !partial && !Guards(stored, seen);
      && (forall id | id in next.snapshots :: id in stored.snapshots)
      && (forall id | id in stored.snapshots && id in seen ::
          id in next.snapshots && next.snapshots[id] == stored.snapshots[id])
      && (forall id | id in stored.snapshots && id !in seen ::
            if !counts then id in next.snapshots && next.snapshots[id] == stored.snapshots[id]
            else if stored.snapshots[id].missing == 0 then id in next.snapshots
                && next.snapshots[id] == stored.snapshots[id].(missing := 1)
            else id !in next.snapshots)
  {
    hide Guards;
    assert forall id | id in stored.snapshots && id !in seen :: id in Absent(stored, seen);
  }

  // ---------------------------------------------------------------- the event log

  /** Folding created and removed events over a set of resource IDs. */
  function Folded(ids: set<int>, events: seq<Event>): set<int> {
    if events == [] then ids
    else
      var before := Folded(ids, events[..|events| - 1]);
      match events[|events| - 1]
      case Created(id) => before + {id}
      case Changed(id) => before
      case Removed(id) => before - {id}
  }

  /** Every created event is of a resource that is not there yet, and every changed or
      removed event of one that is. */
  predicate Faithful(ids: set<int>, events: seq<Event>) {
    events == [] ||
      (var before := Folded(ids, events[..|events| - 1]);
       && Faithful(ids, events[..|events| - 1])
       && (events[|events| - 1].Created? <==> events[|events| - 1].id !in before))
  }

  ghost predicate Logs(ids: set<int>, events: seq<Event>, result: set<int>) {
    Faithful(ids, events) && Folded(ids, events) == result
  }

  lemma LogSnoc(ids: set<int>, events: seq<Event>, event: Event)
    ensures Folded(ids, events + [event]) == (if event.Created? then Folded(ids, events) + {event.id}
      else if event.Removed? then Folded(ids, events) - {event.id} else Folded(ids, events))
    ensures Faithful(ids, events + [event])
        <==> Faithful(ids, events) && (event.Created? <==> event.id !in Folded(ids, events))
  {
    assert (events + [event])[..|events|] == events;
  }

  lemma {:induction false} LogConcat(ids: set<int>, a: seq<Event>, b: seq<Event>, middle: set<int>, result: set<int>)
    requires Logs(ids, a, middle) && Logs(middle, b, result)
    ensures Logs(ids, a + b, result)
    decreases |b|
  {
    if b == [] {
      assert a + b == a;
    } else {
      var n := |b| - 1;
      LogConcat(ids, a, b[..n], middle, Folded(middle, b[..n]));
      LogSnoc(ids, a + b[..n], b[n]);
      assert a + b == a + b[..n] + [b[n]];
    }
  }

  /** A collector whose appearances and removals are all recorded. */
  predicate Recorded(cfg: Config, s: State) {
    s.baseline && (cfg.kind == Plain || (cfg.kind == Users && s.scoped))
  }

  /** The events one step appends. */
  ghost predicate Extends(s: State, next: State) {
    s.events <= next.events && Logs(s.snapshots.Keys, next.events[|s.events|..], next.snapshots.Keys)
  }

  lemma ExtendsTrans(a: State, b: State, c: State)
    requires Extends(a, b) && Extends(b, c)
    ensures Extends(a, c)
  {
    hide Logs;
    LogConcat(a.snapshots.Keys, b.events[|a.events|..], c.events[|b.events|..], b.snapshots.Keys, c.snapshots.Keys);
    assert c.events[|a.events|..] == b.events[|a.events|..] + c.events[|b.events|..];
  }

  lemma ExtendsSame(s: State, next: State)
    requires next.events == s.events && next.snapshots.Keys == s.snapshots.Keys
    ensures Extends(s, next)
  {
    assert next.events[|s.events|..] == [];
  }

  lemma OneEvent(s: State, next: State, event: Event)
    requires next.events == s.events + [event]
    requires event.Created? <==> event.id !in s.snapshots
    requires next.snapshots.Keys == if event.Created? then s.snapshots.Keys + {event.id}
      else if event.Removed? then s.snapshots.Keys - {event.id} else s.snapshots.Keys
    ensures Extends(s, next)
  {
    assert next.events[|s.events|..] == [] + [event];
    LogSnoc(s.snapshots.Keys, [], event);
  }

  lemma UpsertExtends(cfg: Config, s: State, r: Resource)
    requires cfg.kind != DeviceDetails
    ensures Extends(s, Upserted(cfg, s, r, true, false))
  {
    hide Extends;
    var next := Upserted(cfg, s, r, true, false);
    if r.id !in s.snapshots {
      OneEvent(s, next, Created(r.id));
    } else if next.events == s.events {
      ExtendsSame(s, next);
    } else {
      OneEvent(s, next, Changed(r.id));
    }
  }

  lemma {:induction false} UpsertAllExtends(cfg: Config, s: State, resources: seq<Resource>)
    requires cfg.kind != DeviceDetails
    ensures Extends(s, UpsertedAll(cfg, s, resources, true, false))
    decreases |resources|
  {
    hide Extends, Upserted;
    if resources == [] {
      ExtendsSame(s, s);
    } else {
      var before := UpsertedAll(cfg, s, resources[..|resources| - 1], true, false);
      UpsertAllExtends(cfg, s, resources[..|resources| - 1]);
      UpsertExtends(cfg, before, resources[|resources| - 1]);
      ExtendsTrans(s, before, UpsertedAll(cfg, s, resources, true, false));
    }
  }

  lemma {:induction false} RemovalsLog(ids: set<int>, gone: seq<int>)
    requires Ascending(gone) && forall id | id in gone :: id in ids
    ensures Logs(ids, RemovedEvents(gone), ids - Elements(gone))
    decreases |gone|
  {
    if gone == [] {
      assert RemovedEvents(gone) == [];
    } else {
      var n := |gone| - 1;
      RemovalsLog(ids, gone[..n]);
      assert RemovedEvents(gone) == RemovedEvents(gone[..n]) + [Removed(gone[n])];
      LogSnoc(ids, RemovedEvents(gone[..n]), Removed(gone[n]));
      ElementsSnoc(gone[..n], gone[n]);
      assert gone == gone[..n] + [gone[n]];
      assert gone[n] in gone && gone[n] !in gone[..n];
    }
  }

  lemma ReconciledExtends(cfg: Config, s: State, seen: set<int>)
    requires cfg.kind != DeviceDetails
    ensures Extends(s, Reconciled(cfg, s, seen, true))
  {
    hide Logs, Ordered;
    var gone := Gone(s, seen);
    var next := Reconciled(cfg, s, seen, true);
    OrderedCovers(gone);
    RemovalsLog(s.snapshots.Keys, Ordered(gone));
    assert next.snapshots.Keys == s.snapshots.Keys - gone;
    assert next.events[|s.events|..] == RemovedEvents(Ordered(gone));
  }

  lemma StateRowExtends(s: State, next: State, row: State)
    requires Extends(s, next) && row.events == next.events && row.snapshots == next.snapshots
    ensures Extends(s, row)
  {
  }

  lemma AnswerExtends(cfg: Config, s: State, resources: seq<Resource>, partial: bool)
    requires Recorded(cfg, s)
    ensures Extends(s, Answered(cfg, s, resources, partial)) && Recorded(cfg, Answered(cfg, s, resources, partial))
  {
    hide Extends, UpsertedAll, Guards, Reconciled;
    var seen := Ids(resources);
    var entry := s.(scoped := s.scoped || cfg.kind == Users);
    assert entry == s;
    UpsertAllExtends(cfg, s, resources);
    UpsertShape(cfg, s, resources, true, false);
    var stored := AfterUpserts(cfg, s, resources);
    ReconciledExtends(cfg, stored, seen);
    var reconciled := Reconciled(cfg, stored, seen, true);
    ExtendsTrans(s, stored, reconciled);
    ReconciledFrame(cfg, stored, seen);
    if !partial && !Guards(stored, seen) && Absent(stored, seen) != {} {
      StateRowExtends(s, reconciled, Answered(cfg, s, resources, partial));
    } else {
      StateRowExtends(s, stored, Answered(cfg, s, resources, partial));
    }
  }

  lemma ReconciledFrame(cfg: Config, s: State, seen: set<int>)
    ensures var next := Reconciled(cfg, s, seen, true);
      next == s.(snapshots := next.snapshots, events := next.events)
  {
  }

  lemma NextExtends(cfg: Config, s: State, poll: Poll)
    requires Recorded(cfg, s)
    ensures Extends(s, Next(cfg, s, poll)) && Recorded(cfg, Next(cfg, s, poll))
  {
    hide Extends, Answered;
    match poll
    case Answer(resources, partial) => AnswerExtends(cfg, s, resources, partial);
    case Unsupported => ExtendsSame(s, NotSupported(s));
    case Failed => ExtendsSame(s, Failing(s));
  }

  /** Over any sequence of complete, partial, unsupported and failed polls of a baselined
      collector, the recorded events turn the stored resource IDs at the start into
      exactly those at the end, and none of them is recorded out of place. */
  lemma {:induction false} EventsAgreeWithSnapshots(cfg: Config, s: State, polls: seq<Poll>)
    requires Recorded(cfg, s)
    ensures Extends(s, After(cfg, s, polls)) && Recorded(cfg, After(cfg, s, polls))
    decreases |polls|
  {
    hide Extends, Next;
    if polls == [] {
      ExtendsSame(s, s);
    } else {
      var before := After(cfg, s, polls[..|polls| - 1]);
      EventsAgreeWithSnapshots(cfg, s, polls[..|polls| - 1]);
      NextExtends(cfg, before, polls[|polls| - 1]);
      ExtendsTrans(s, before, After(cfg, s, polls));
    }
  }

  // ---------------------------------------------------------------- stored content

  /** Poll m is the last answer that contains the resource. */
  predicate LastAnswer(polls: seq<Poll>, id: int, m: nat) {
    m < |polls| && Contains(polls[m], id) && forall j | m < j < |polls| :: !Contains(polls[j], id)
  }

  lemma LastAnswerSnoc(polls: seq<Poll>, id: int, m: nat)
    requires polls != [] && !Contains(polls[|polls| - 1], id)
    requires LastAnswer(polls[..|polls| - 1], id, m)
    ensures LastAnswer(polls, id, m)
  {
  }

  /** From a fresh start, every stored hash is that of the last answer, complete,
      partial or guarded, that contained the resource. */
  lemma {:induction false} StoredFromLastAnswer(cfg: Config, polls: seq<Poll>, id: int) returns (m: nat)
    requires id in After(cfg, NEW, polls).snapshots
    ensures LastAnswer(polls, id, m)
    ensures After(cfg, NEW, polls).snapshots[id].hash == HashIn(polls[m].resources, id)
    decreases |polls|
  {
    hide Answered, HashIn;
    var n := |polls| - 1;
    var before, poll := After(cfg, NEW, polls[..n]), polls[n];
    if Contains(poll, id) {
      m := n;
      AnswerShape(cfg, before, poll.resources, poll.partial);
    } else {
      if poll.Answer? { AnswerShape(cfg, before, poll.resources, poll.partial); }
      m := StoredFromLastAnswer(cfg, polls[..n], id);
      LastAnswerSnoc(polls, id, m);
    }
  }

  // ---------------------------------------------------------------- safety

  /** A complete answer whose omissions count. */
  predicate Counts(cfg: Config, s: State, poll: Poll) {
    poll.Answer? && !poll.partial && !Guards(AfterUpserts(cfg, s, poll.resources), Ids(poll.resources))
  }

  /** Poll m was complete, unguarded and omitted the resource, and no later poll
      contained it. */
  predicate MissedAt(cfg: Config, s: State, polls: seq<Poll>, id: int, m: nat) {
    && m < |polls|
    && Counts(cfg, After(cfg, s, polls[..m]), polls[m])
    && !Contains(polls[m], id)
    && forall j | m < j < |polls| :: !Contains(polls[j], id)
  }

  ghost predicate MissedBefore(cfg: Config, s: State, polls: seq<Poll>, id: int) {
    exists m: nat :: MissedAt(cfg, s, polls, id, m)
  }

  lemma MissedSnoc(cfg: Config, s: State, polls: seq<Poll>, id: int)
    requires polls != []
    ensures var n := |polls| - 1;
      MissedBefore(cfg, s, polls, id) <==>
        !Contains(polls[n], id) && (Counts(cfg, After(cfg, s, polls[..n]), polls[n])
            || MissedBefore(cfg, s, polls[..n], id))
  {
    hide Counts, After, Contains;
    var n := |polls| - 1;
    if MissedBefore(cfg, s, polls, id) {
      var m: nat :| MissedAt(cfg, s, polls, id, m);
      if m < n {
        assert polls[..n][..m] == polls[..m];
        assert MissedAt(cfg, s, polls[..n], id, m);
      }
    }
    if !Contains(polls[n], id) && Counts(cfg, After(cfg, s, polls[..n]), polls[n]) {
      assert MissedAt(cfg, s, polls, id, n);
    }
    if !Contains(polls[n], id) && MissedBefore(cfg, s, polls[..n], id) {
      var m: nat :| MissedAt(cfg, s, polls[..n], id, m);
      assert polls[..n][..m] == polls[..m];
      assert MissedAt(cfg, s, polls, id, m);
    }
  }

  /** A stored miss is exactly one earlier unguarded complete answer without the resource,
      since the last answer that contained it. */
  lemma {:induction false} MissIsEarlierOmission(cfg: Config, polls: seq<Poll>, id: int)
    requires id in After(cfg, NEW, polls).snapshots
    ensures After(cfg, NEW, polls).snapshots[id].missing > 0 <==> MissedBefore(cfg, NEW, polls, id)
    decreases |polls|
  {
    hide Answered, HashIn, Counts;
    var n := |polls| - 1;
    var before, poll := After(cfg, NEW, polls[..n]), polls[n];
    MissedSnoc(cfg, NEW, polls, id);
    CountsOf(cfg, before, poll);
    if poll.Answer? { AnswerShape(cfg, before, poll.resources, poll.partial); }
    if !Contains(poll, id) {
      MissIsEarlierOmission(cfg, polls[..n], id);
    }
  }

  lemma CountsOf(cfg: Config, s: State, poll: Poll)
    ensures Counts(cfg, s, poll) <==>
      poll.Answer? && !poll.partial && !Guards(AfterUpserts(cfg, s, poll.resources), Ids(poll.resources))
  {
  }

  /** A poll removes a stored resource if and only if that poll and one earlier poll were
      complete and unguarded and both omitted it, with no answer containing it in between. */
  lemma RemovedIff(cfg: Config, polls: seq<Poll>, poll: Poll, id: int)
    requires id in After(cfg, NEW, polls).snapshots
    ensures var s := After(cfg, NEW, polls);
      id !in Next(cfg, s, poll).snapshots <==>
        Counts(cfg, s, poll) && !Contains(poll, id) && MissedBefore(cfg, NEW, polls, id)
  {
    hide Answered, HashIn, After;
    var s := After(cfg, NEW, polls);
    MissIsEarlierOmission(cfg, polls, id);
    if poll.Answer? { AnswerShape(cfg, s, poll.resources, poll.partial); }
  }

  // ---------------------------------------------------------------- liveness

  function Complete(resources: seq<Resource>): Poll {
    Answer(resources, false)
  }

  function FirstMisses(s: State, seen: set<int>): set<int> {
    set id | id in Absent(s, seen) && s.snapshots[id].missing == 0
  }

  /** What a complete answer with a fixed set of resources leaves: those resources, and
      the omitted ones that are not yet removed. */
  lemma CompleteShape(cfg: Config, s: State, resources: seq<Resource>)
    ensures var next := Answered(cfg, s, resources, false);
      var seen := Ids(resources);
      && seen <= next.snapshots.Keys <= s.snapshots.Keys + seen
      && (if Counts(cfg, s, Complete(resources))
          then Absent(next, seen) == FirstMisses(s, seen)
               && (forall id | id in Absent(next, seen) :: next.snapshots[id].missing == 1)
               && next.note == Healthy
          else Absent(next, seen) == Absent(s, seen)
               && (forall id | id in Absent(s, seen) :: next.snapshots[id] == s.snapshots[id])
               && next.note == Guarded && next.failures == (if s.known then s.failures + 1 else 1) && next.known)
  {
    hide HashIn, UpsertedAll, Guards;
    AnswerShape(cfg, s, resources, false);
    UpsertShape(cfg, s.(scoped := s.scoped || cfg.kind == Users), resources, s.baseline, Absorbs(cfg, s));
    var next, seen := Answered(cfg, s, resources, false), Ids(resources);
    if Counts(cfg, s, Complete(resources)) {
      forall id ensures id in Absent(next, seen) <==> id in FirstMisses(s, seen) {}
    } else {
      assert Absent(next, seen) == Absent(s, seen);
    }
  }

  /** Whether the guard acts depends only on the omitted resources and the state row. */
  lemma GuardOf(cfg: Config, s: State, resources: seq<Resource>)
    ensures var seen := Ids(resources);
      Counts(cfg, s, Complete(resources)) <==>
        !(|Absent(s, seen)| >= 3 && |Absent(s, seen)| > |seen|)
        || (Absent(s, seen) != {} && forall id | id in Absent(s, seen) :: s.snapshots[id].missing > 0)
        || (s.note == Guarded && s.failures >= 2)
  {
    hide HashIn, UpsertedAll, Ids;
    var seen := Ids(resources);
    UpsertShape(cfg, s.(scoped := s.scoped || cfg.kind == Users), resources, s.baseline, Absorbs(cfg, s));
    GuardsAsBefore(s, AfterUpserts(cfg, s, resources), seen);
  }

  lemma GuardsAsBefore(s: State, stored: State, seen: set<int>)
    requires stored.snapshots.Keys == s.snapshots.Keys + seen
    requires forall id | id in s.snapshots && id !in seen :: stored.snapshots[id] == s.snapshots[id]
    requires stored.note == s.note && stored.failures == s.failures
    ensures Absent(stored, seen) == Absent(s, seen)
    ensures Guards(stored, seen) <==> Guards(s, seen)
  {
    assert Absent(stored, seen) == Absent(s, seen);
  }

  lemma ConfirmedCounts(cfg: Config, s: State, resources: seq<Resource>)
    requires forall id | id in Absent(s, Ids(resources)) :: s.snapshots[id].missing > 0
    ensures Counts(cfg, s, Complete(resources)) && Answered(cfg, s, resources, false).snapshots.Keys == Ids(resources)
  {
    hide HashIn, Counts, Answered;
    GuardOf(cfg, s, resources);
    if Absent(s, Ids(resources)) == {} { assert |Absent(s, Ids(resources))| == 0; }
    CompleteShape(cfg, s, resources);
    forall id ensures id !in FirstMisses(s, Ids(resources)) {}
    var next := Answered(cfg, s, resources, false);
    assert forall id | id in next.snapshots :: id in Ids(resources) || id in Absent(next, Ids(resources));
    assert next.snapshots.Keys == Ids(resources);
  }

  /** An unguarded answer, followed by the same one, leaves exactly what it returned. */
  lemma TwoCountingPolls(cfg: Config, s: State, resources: seq<Resource>, again: seq<Resource>)
    requires Counts(cfg, s, Complete(resources)) && Ids(again) == Ids(resources)
    ensures Answered(cfg, Answered(cfg, s, resources, false), again, false).snapshots.Keys == Ids(resources)
  {
    hide Counts, Answered, HashIn;
    CompleteShape(cfg, s, resources);
    ConfirmedCounts(cfg, Answered(cfg, s, resources, false), again);
  }

  lemma SettledStays(cfg: Config, s: State, resources: seq<Resource>)
    requires s.snapshots.Keys == Ids(resources)
    ensures Answered(cfg, s, resources, false).snapshots.Keys == Ids(resources)
  {
    hide Answered, HashIn;
    assert Absent(s, Ids(resources)) == {};
    ConfirmedCounts(cfg, s, resources);
  }

  /** Whatever the guard's starting state, four complete answers in a row with the same
      resource IDs leave exactly those: everything they omit is removed by the fourth. */
  lemma FourCompletePolls(cfg: Config, s: State, a: seq<Resource>, b: seq<Resource>, c: seq<Resource>, d: seq<Resource>)
    requires Ids(a) == Ids(b) == Ids(c) == Ids(d)
    ensures var one := Answered(cfg, s, a, false);
      var two := Answered(cfg, one, b, false);
      var three := Answered(cfg, two, c, false);
      Answered(cfg, three, d, false).snapshots.Keys == Ids(a)
  {
    hide Answered, HashIn, Counts;
    var one := Answered(cfg, s, a, false);
    var two := Answered(cfg, one, b, false);
    var three := Answered(cfg, two, c, false);
    CompleteShape(cfg, s, a);
    CompleteShape(cfg, one, b);
    if Counts(cfg, s, Complete(a)) {
      TwoCountingPolls(cfg, s, a, b);
      SettledStays(cfg, two, c);
      SettledStays(cfg, three, d);
    } else if Counts(cfg, one, Complete(b)) {
      TwoCountingPolls(cfg, one, b, c);
      SettledStays(cfg, three, d);
    } else {
      GuardOf(cfg, two, c);
      TwoCountingPolls(cfg, two, c, d);
    }
  }

  /** When the guard engages on a mass disappearance, a second identical answer is guarded
      too exactly when no failure was on record. */
  lemma GuardHoldsTwiceIff(cfg: Config, s: State, a: seq<Resource>, b: seq<Resource>)
    requires Ids(a) == Ids(b) && s.note != Guarded && !Counts(cfg, s, Complete(a))
    ensures !Counts(cfg, Answered(cfg, s, a, false), Complete(b)) <==> !s.known || s.failures == 0
  {
    hide Answered, HashIn, Counts;
    GuardOf(cfg, s, a);
    CompleteShape(cfg, s, a);
    GuardOf(cfg, Answered(cfg, s, a, false), b);
  }

  lemma FirstPartial(cfg: Config, a: Resource, b: Resource, c: Resource)
    ensures var s := After(cfg, NEW, [Answer([a, b, c], true)]);
      && s.snapshots.Keys == {a.id, b.id, c.id} && (forall id | id in s.snapshots :: s.snapshots[id].missing == 0)
      && s.known && s.failures == 1 && s.note == PartialAnswer
  {
    hide UpsertedAll, HashIn, Ids;
    var polls, resources := [Answer([a, b, c], true)], [a, b, c];
    assert polls[..0] == [];
    assert After(cfg, NEW, polls) == Answered(cfg, NEW, resources, true);
    AnswerShape(cfg, NEW, resources, true);
    UpsertShape(cfg, NEW.(scoped := NEW.scoped || cfg.kind == Users), resources, NEW.baseline, Absorbs(cfg, NEW));
    ThreeIds(a, b, c);
  }

  lemma ThreeIds(a: Resource, b: Resource, c: Resource)
    ensures Ids([a, b, c]) == {a.id, b.id, c.id} && Ids([]) == {}
  {
    assert [a, b, c][0].id in Ids([a, b, c]) && [a, b, c][1].id in Ids([a, b, c]) && [a, b, c][2].id in Ids([a, b, c]);
  }

  /** A new collector whose first answer, a partial one, held three resources has a failure
      on record: of two empty complete answers after it only the first is held back. */
  lemma GuardHoldsOnce(cfg: Config, a: Resource, b: Resource, c: Resource)
    requires a.id != b.id && b.id != c.id && a.id != c.id
    ensures var s := After(cfg, NEW, [Answer([a, b, c], true)]);
      && s.known && s.failures == 1 && s.note != Guarded
      && !Counts(cfg, s, Complete([])) && Counts(cfg, Answered(cfg, s, [], false), Complete([]))
  {
    hide After, Counts, Answered, Ids;
    var s := After(cfg, NEW, [Answer([a, b, c], true)]);
    FirstPartial(cfg, a, b, c);
    ThreeIds(a, b, c);
    assert Absent(s, {}) == {a.id, b.id, c.id};
    assert |{a.id, b.id, c.id}| == 3;
    GuardOf(cfg, s, []);
    assert a.id in Absent(s, {}) && s.snapshots[a.id].missing == 0;
    GuardHoldsTwiceIff(cfg, s, [], []);
  }

  // ---------------------------------------------------------------- unsupported and failed polls

  /** The pending confirmation is on record only right after an unsupported answer. */
  lemma {:induction false} OnceMeansLast(cfg: Config, polls: seq<Poll>)
    ensures After(cfg, NEW, polls).note == UnsupportedOnce ==> polls != [] && polls[|polls| - 1].Unsupported?
  {
    hide UpsertedAll, Reconciled, Guards;
  }

  /** In every reachable state a supported baseline is demoted exactly by an unsupported
      answer that follows another one directly; such answers touch nothing else. */
  lemma DemotedByTwoUnsupported(cfg: Config, polls: seq<Poll>, poll: Poll)
    requires After(cfg, NEW, polls).supported && After(cfg, NEW, polls).baseline
    ensures !Next(cfg, After(cfg, NEW, polls), poll).supported
        <==> poll.Unsupported? && polls != [] && polls[|polls| - 1].Unsupported?
    ensures poll.Unsupported? ==>
      var s, next := After(cfg, NEW, polls), Next(cfg, After(cfg, NEW, polls), poll);
      next.snapshots == s.snapshots && next.events == s.events && next.baseline
  {
    hide UpsertedAll, Reconciled, Guards;
    OnceMeansLast(cfg, polls);
  }

  /** A run of failed polls counts each of them and keeps the snapshots, the events and the
      baseline: what is removed afterwards never depends on them, apart from the guard. */
  lemma {:induction false} FailuresKeepResources(cfg: Config, s: State, polls: seq<Poll>)
    requires forall poll | poll in polls :: poll.Failed?
    ensures var after := After(cfg, s, polls);
      && after.snapshots == s.snapshots && after.events == s.events && after.baseline == s.baseline
      && after.failures == s.failures + |polls| && (polls != [] ==> after.supported && after.note == FailedPoll)
    decreases |polls|
  {
    if polls != [] {
      assert polls[|polls| - 1] in polls;
      FailuresKeepResources(cfg, s, polls[..|polls| - 1]);
    }
  }
}
