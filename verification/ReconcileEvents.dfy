/** Exactly which events one answer records, each how often, and the same over whole runs.
 */
module ReconcileEvents {
  import opened Sets
  import opened ReconcileSpec
  import opened Reconcile

  /** No resource is listed twice. */
  ghost predicate Distinct(resources: seq<Resource>) {
    forall i, j | 0 <= i < j < |resources| :: resources[i].id != resources[j].id
  }

  /** The events recorded between two states. */
  function Added(s: State, next: State): seq<Event>
    requires |s.events| <= |next.events|
  {
    next.events[|s.events|..]
  }

  /** Storing the resources of an answer has to record this event: a resource appears that
      was not stored, or a stored one changes in a comparable way. */
  ghost predicate Reports(cfg: Config, s: State, resources: seq<Resource>, baselined: bool, absorb: bool, e: Event) {
    && baselined
    && match e
       case Created(id) =>
         && cfg.kind != DeviceDetails && id !in s.snapshots
         && exists r | r in resources :: r.id == id && !(absorb && r.shared)
       case Changed(id) =>
         && id in s.snapshots
         && var was := s.snapshots[id].hash;
            exists r | r in resources :: r.id == id && r.hash != was && cfg.reports(was, r.hash)
       case Removed(id) => false
  }

  lemma UpsertOneCount(cfg: Config, s: State, r: Resource, baselined: bool, absorb: bool, e: Event)
    ensures var next := Upserted(cfg, s, r, baselined, absorb);
      && s.events <= next.events
      && multiset(Added(s, next))[e] == if Reports(cfg, s, [r], baselined, absorb, e) then 1 else 0
  {
    var next := Upserted(cfg, s, r, baselined, absorb);
    assert r in [r];
    assert Added(s, next) == [] || Added(s, next) == [next.events[|s.events|]];
  }

  /** The last resource is new to the answer, so it meets what was stored before it. */
  lemma ReportsSnoc(cfg: Config, s: State, before: State, resources: seq<Resource>, baselined: bool, absorb: bool,
                    e: Event)
    requires resources != [] && Distinct(resources)
    requires var n := |resources| - 1;
      before == UpsertedAll(cfg, s, resources[..n], baselined, absorb)
    ensures var n := |resources| - 1;
      && (Reports(cfg, s, resources, baselined, absorb, e) <==>
            || Reports(cfg, s, resources[..n], baselined, absorb, e)
            || Reports(cfg, before, [resources[n]], baselined, absorb, e))
      && !(&& Reports(cfg, s, resources[..n], baselined, absorb, e)
           && Reports(cfg, before, [resources[n]], baselined, absorb, e))
  {
    hide UpsertedAll, HashIn, Ids;
    var n := |resources| - 1;
    var last := resources[n];
    UpsertShape(cfg, s, resources[..n], baselined, absorb);
    assert resources == resources[..n] + [last] && last in [last];
    forall r | r in resources[..n] ensures r.id != last.id {
      var i :| 0 <= i < n && resources[..n][i] == r;
      assert resources[i] == r;
    }
    LastIsNew(resources);
    assert last.id in s.snapshots <==> last.id in before.snapshots;
  }

  lemma LastIsNew(resources: seq<Resource>)
    requires resources != [] && Distinct(resources)
    ensures resources[|resources| - 1].id !in Ids(resources[..|resources| - 1])
  {
  }

  lemma {:induction false} UpsertCount(cfg: Config, s: State, resources: seq<Resource>, baselined: bool, absorb: bool,
                                       e: Event)
    requires Distinct(resources)
    ensures var next := UpsertedAll(cfg, s, resources, baselined, absorb);
      && s.events <= next.events
      && multiset(Added(s, next))[e] == if Reports(cfg, s, resources, baselined, absorb, e) then 1 else 0
    decreases |resources|
  {
    hide Reports, Upserted;
    if resources == [] {
      assert Added(s, s) == [];
      NoReports(cfg, s, baselined, absorb, e);
    } else {
      var n := |resources| - 1;
      var before := UpsertedAll(cfg, s, resources[..n], baselined, absorb);
      var next := Upserted(cfg, before, resources[n], baselined, absorb);
      UpsertCount(cfg, s, resources[..n], baselined, absorb, e);
      UpsertOneCount(cfg, before, resources[n], baselined, absorb, e);
      ReportsSnoc(cfg, s, before, resources, baselined, absorb, e);
      assert Added(s, next) == Added(s, before) + Added(before, next);
    }
  }

  lemma NoReports(cfg: Config, s: State, baselined: bool, absorb: bool, e: Event)
    ensures !Reports(cfg, s, [], baselined, absorb, e)
  {
  }

  // ---------------------------------------------------------------- removals

  lemma {:induction false} RemovalCount(ids: seq<int>, e: Event)
    requires forall i, j | 0 <= i < j < |ids| :: ids[i] != ids[j]
    ensures multiset(RemovedEvents(ids))[e] == if e.Removed? && e.id in ids then 1 else 0
    decreases |ids|
  {
    if ids == [] {
      assert RemovedEvents(ids) == [];
    } else {
      var n := |ids| - 1;
      RemovalCount(ids[..n], e);
      assert ids == ids[..n] + [ids[n]] && ids[n] !in ids[..n];
      assert RemovedEvents(ids) == RemovedEvents(ids[..n]) + [Removed(ids[n])];
    }
  }

  /** Concluding an answer records the removals and nothing else. */
  lemma ConcludedCount(cfg: Config, stored: State, seen: set<int>, partial: bool, baselined: bool, e: Event)
    ensures var next := Concluded(cfg, stored, seen, partial, baselined);
      && stored.events <= next.events
      && multiset(Added(stored, next))[e] ==
           if baselined && cfg.kind != DeviceDetails && e.Removed?
              && e.id in stored.snapshots && e.id !in next.snapshots
           then 1 else 0
  {
    hide Guards, Ordered;
    var next := Concluded(cfg, stored, seen, partial, baselined);
    var gone := Gone(stored, seen);
    OrderedCovers(gone);
    RemovalCount(Ordered(gone), e);
    assert Added(stored, next) == [] || Added(stored, next) == RemovedEvents(Ordered(gone));
  }

  // ---------------------------------------------------------------- one answer

  /** Everything one answer records, each event once: a change of every stored resource
      that comes with a comparably different content, an appearance of every resource that
      was not stored, unless it is a shared user that is absorbed, and a removal of every
      stored resource that is no longer stored. Before the baseline nothing is recorded. */
  lemma AnswerRecords(cfg: Config, s: State, resources: seq<Resource>, partial: bool, id: int)
    requires Distinct(resources)
    ensures var next := Answered(cfg, s, resources, partial);
      && s.events <= next.events
      && var added := multiset(Added(s, next));
      && added[Changed(id)] ==
           (if s.baseline && id in s.snapshots && exists r | r in resources ::
                 r.id == id && r.hash != s.snapshots[id].hash && cfg.reports(s.snapshots[id].hash, r.hash)
            then 1 else 0)
      && added[Created(id)] ==
           (if s.baseline && cfg.kind != DeviceDetails && id !in s.snapshots && exists r | r in resources ::
                 r.id == id && !(cfg.kind == Users && !s.scoped && r.shared)
            then 1 else 0)
      && added[Removed(id)] ==
           (if s.baseline && cfg.kind != DeviceDetails && id in s.snapshots && id !in next.snapshots then 1 else 0)
  {
    hide UpsertedAll, Concluded, Reports, HashIn, Ids;
    var next, stored := Answered(cfg, s, resources, partial), AfterUpserts(cfg, s, resources);
    var entry := s.(scoped := s.scoped || cfg.kind == Users);
    UpsertShape(cfg, entry, resources, s.baseline, Absorbs(cfg, s));
    AnswerShape(cfg, s, resources, partial);
    forall e: Event
      ensures s.events <= stored.events <= next.events
      ensures multiset(Added(s, next))[e] ==
        (if Reports(cfg, entry, resources, s.baseline, Absorbs(cfg, s), e) then 1 else 0)
        + multiset(Added(stored, next))[e]
    {
      UpsertCount(cfg, entry, resources, s.baseline, Absorbs(cfg, s), e);
      ConcludedCount(cfg, stored, Ids(resources), partial, s.baseline, e);
      assert Added(s, next) == Added(entry, stored) + Added(stored, next);
    }
    forall e: Event {
      ConcludedCount(cfg, stored, Ids(resources), partial, s.baseline, e);
    }
    ReportsRaw(cfg, s, entry, resources, id);
  }

  lemma ReportsRaw(cfg: Config, s: State, entry: State, resources: seq<Resource>, id: int)
    requires entry == s.(scoped := s.scoped || cfg.kind == Users)
    ensures Reports(cfg, entry, resources, s.baseline, Absorbs(cfg, s), Changed(id)) <==>
      s.baseline && id in s.snapshots && exists r | r in resources ::
        r.id == id && r.hash != s.snapshots[id].hash && cfg.reports(s.snapshots[id].hash, r.hash)
    ensures Reports(cfg, entry, resources, s.baseline, Absorbs(cfg, s), Created(id)) <==>
      s.baseline && cfg.kind != DeviceDetails && id !in s.snapshots && exists r | r in resources ::
        r.id == id && !(cfg.kind == Users && !s.scoped && r.shared)
    ensures !Reports(cfg, entry, resources, s.baseline, Absorbs(cfg, s), Removed(id))
  {
  }

  // ---------------------------------------------------------------- runs

  /** A collector of a new generation has a baseline as soon as, and as long as, one poll
      was answered. */
  lemma {:induction false} BaselinedIff(cfg: Config, polls: seq<Poll>)
    ensures After(cfg, NEW, polls).baseline <==> exists k :: 0 <= k < |polls| && polls[k].Answer?
    ensures !After(cfg, NEW, polls).baseline ==> After(cfg, NEW, polls).snapshots == map[]
    decreases |polls|
  {
    hide Answered;
    if polls != [] {
      var n := |polls| - 1;
      BaselinedIff(cfg, polls[..n]);
      assert forall k | 0 <= k < n :: polls[..n][k] == polls[k];
      if polls[n].Answer? { AnswerBaselines(cfg, After(cfg, NEW, polls[..n]), polls[n]); }
    }
  }

  lemma AnswerBaselines(cfg: Config, s: State, poll: Poll)
    requires poll.Answer? && (!s.baseline ==> s.snapshots == map[])
    ensures Answered(cfg, s, poll.resources, poll.partial).baseline
  {
    hide HashIn, UpsertedAll, Ids, Reconciled;
    var entry := s.(scoped := s.scoped || cfg.kind == Users);
    UpsertShape(cfg, entry, poll.resources, s.baseline, Absorbs(cfg, s));
    var stored, seen := AfterUpserts(cfg, s, poll.resources), Ids(poll.resources);
    if !s.baseline { assert Absent(stored, seen) == {}; }
  }

  /** What is stored of a resource after some polls: the content of the last answer that
      contained it, unless two complete unguarded answers have omitted it since. */
  ghost predicate StoredAs(cfg: Config, polls: seq<Poll>, id: int, hash: string) {
    id in After(cfg, NEW, polls).snapshots
    && exists m: nat :: LastAnswer(polls, id, m) && HashIn(polls[m].resources, id) == hash
  }

  lemma StoredAsIff(cfg: Config, polls: seq<Poll>, id: int, hash: string)
    ensures StoredAs(cfg, polls, id, hash) <==>
      id in After(cfg, NEW, polls).snapshots && After(cfg, NEW, polls).snapshots[id].hash == hash
  {
    hide HashIn, After;
    if id in After(cfg, NEW, polls).snapshots {
      var m := StoredFromLastAnswer(cfg, polls, id);
      forall k: nat | LastAnswer(polls, id, k) ensures k == m { OneLastAnswer(polls, id, k, m); }
    }
  }

  lemma OneLastAnswer(polls: seq<Poll>, id: int, k: nat, m: nat)
    requires LastAnswer(polls, id, k) && LastAnswer(polls, id, m)
    ensures k == m
  {
  }

  lemma {:induction false} OnlyHash(resources: seq<Resource>, r: Resource)
    requires Distinct(resources) && r in resources
    ensures r.id in Ids(resources) && HashIn(resources, r.id) == r.hash
    decreases |resources|
  {
    var n := |resources| - 1;
    var i :| 0 <= i < |resources| && resources[i] == r;
    if i < n {
      assert resources[..n][i] == r;
      OnlyHash(resources[..n], r);
    }
  }

  /** The last answer with the resource, while it is still stored, had a comparably
      different content from this one. */
  ghost predicate Differs(cfg: Config, polls: seq<Poll>, resources: seq<Resource>, id: int)
    requires id in Ids(resources)
  {
    var now := HashIn(resources, id);
    exists hash :: (StoredAs(cfg, polls, id, hash) && hash != now && cfg.reports(hash, now))
  }

  lemma DiffersIff(cfg: Config, polls: seq<Poll>, resources: seq<Resource>, id: int)
    requires id in Ids(resources)
    ensures Differs(cfg, polls, resources, id) <==>
      var s := After(cfg, NEW, polls);
      && id in s.snapshots && HashIn(resources, id) != s.snapshots[id].hash
      && cfg.reports(s.snapshots[id].hash, HashIn(resources, id))
  {
    hide HashIn, After, StoredAs;
    var s := After(cfg, NEW, polls);
    forall hash ensures StoredAs(cfg, polls, id, hash) <==> id in s.snapshots && s.snapshots[id].hash == hash {
      StoredAsIff(cfg, polls, id, hash);
    }
  }

  lemma ListedIff(cfg: Config, resources: seq<Resource>, id: int, was: string)
    requires Distinct(resources)
    ensures (exists r | r in resources :: r.id == id && r.hash != was && cfg.reports(was, r.hash)) <==>
      id in Ids(resources) && HashIn(resources, id) != was && cfg.reports(was, HashIn(resources, id))
  {
    hide HashIn;
    forall r | r in resources ensures r.id in Ids(resources) && HashIn(resources, r.id) == r.hash {
      OnlyHash(resources, r);
    }
    if id in Ids(resources) {
      var i :| 0 <= i < |resources| && resources[i].id == id;
      assert resources[i] in resources;
    }
  }

  /** In every run from a new generation, an answer records a change of a resource, once,
      if and only if it contains the resource and the last answer that did, while it is
      still stored, had a comparably different content. */
  lemma ChangeRecordedIff(cfg: Config, polls: seq<Poll>, resources: seq<Resource>, partial: bool, id: int)
    requires Distinct(resources)
    ensures var s, next := After(cfg, NEW, polls), After(cfg, NEW, polls + [Answer(resources, partial)]);
      && s.events <= next.events
      && multiset(Added(s, next))[Changed(id)] ==
           if id in Ids(resources) && Differs(cfg, polls, resources, id) then 1 else 0
  {
    hide Answered, HashIn, StoredAs, Differs, Distinct;
    var all := polls + [Answer(resources, partial)];
    assert all[..|all| - 1] == polls;
    var s := After(cfg, NEW, polls);
    AnswerRecords(cfg, s, resources, partial, id);
    BaselinedIff(cfg, polls);
    if id in s.snapshots { ListedIff(cfg, resources, id, s.snapshots[id].hash); }
    if id in Ids(resources) { DiffersIff(cfg, polls, resources, id); }
  }

  // ---------------------------------------------------------------- order

  /** The events before the removals follow the answer's order, the removals come last by ID. */
  lemma {:induction false} StoredInOrder(cfg: Config, s: State, resources: seq<Resource>, baselined: bool, absorb: bool)
    returns (at: seq<int>)
    ensures var next := UpsertedAll(cfg, s, resources, baselined, absorb);
      && s.events <= next.events && |Added(s, next)| == |at| && Ascending(at)
      && forall k | 0 <= k < |at| :: 0 <= at[k] < |resources|
           && !Added(s, next)[k].Removed? && Added(s, next)[k].id == resources[at[k]].id
    decreases |resources|
  {
    if resources == [] {
      at := [];
    } else {
      var n := |resources| - 1;
      at := StoredInOrder(cfg, s, resources[..n], baselined, absorb);
      var before := UpsertedAll(cfg, s, resources[..n], baselined, absorb);
      if UpsertedAll(cfg, s, resources, baselined, absorb).events != before.events { at := at + [n]; }
    }
  }

  lemma ConcludedRemovals(cfg: Config, stored: State, seen: set<int>, partial: bool, baselined: bool)
    returns (gone: seq<int>)
    ensures Ascending(gone)
    ensures Concluded(cfg, stored, seen, partial, baselined).events == stored.events + RemovedEvents(gone)
  {
    hide Guards, Ordered;
    OrderedCovers(Gone(stored, seen));
    gone := Ordered(Gone(stored, seen));
    if Concluded(cfg, stored, seen, partial, baselined).events == stored.events { gone := []; }
  }

  /** One answer first records appearances and changes, in the order of the answer, and
      then the removals, by ID. */
  lemma AnswerInOrder(cfg: Config, s: State, resources: seq<Resource>, partial: bool)
    returns (at: seq<int>, gone: seq<int>)
    ensures Ascending(at) && Ascending(gone)
    ensures var next := Answered(cfg, s, resources, partial);
      && s.events <= next.events && |Added(s, next)| == |at| + |gone|
      && (forall k | 0 <= k < |at| :: 0 <= at[k] < |resources|
            && !Added(s, next)[k].Removed? && Added(s, next)[k].id == resources[at[k]].id)
      && forall k | 0 <= k < |gone| :: Added(s, next)[|at| + k] == Removed(gone[k])
  {
    hide UpsertedAll, Concluded, Ordered;
    var entry := s.(scoped := s.scoped || cfg.kind == Users);
    var stored, next := AfterUpserts(cfg, s, resources), Answered(cfg, s, resources, partial);
    at := StoredInOrder(cfg, entry, resources, s.baseline, Absorbs(cfg, s));
    gone := ConcludedRemovals(cfg, stored, Ids(resources), partial, s.baseline);
    assert Added(s, next) == Added(entry, stored) + Added(stored, next);
  }

  // ---------------------------------------------------------------- the state row

  /** Most of what was stored is missing at once, some of it for the first time, and two
      such answers in a row are not on record yet. */
  ghost predicate HeldAnswer(s: State, resources: seq<Resource>) {
    var missing := set id | id in s.snapshots && forall r | r in resources :: r.id != id;
    && |missing| >= 3 && |missing| > |set r | r in resources :: r.id|
    && (exists id | id in missing :: s.snapshots[id].missing == 0)
    && !(s.note == Guarded && s.failures >= 2)
  }

  /** The whole state row after a poll. A partial answer keeps the failure count, a
      held-back one counts as a failure and gives no baseline; any other answer clears the
      failures. A supported collector with a baseline survives one unsupported answer. */
  lemma StateRow(cfg: Config, s: State, poll: Poll)
    ensures var next := Next(cfg, s, poll);
      && next.known && (next.scoped <==> s.scoped || (poll.Answer? && cfg.kind == Users))
      && match poll
         case Failed =>
           && next.supported && next.baseline == s.baseline
           && next.failures == s.failures + 1 && next.note == FailedPoll
         case Unsupported =>
           var first := s.known && s.supported && s.baseline && s.note != UnsupportedOnce;
           && next.supported == first && next.baseline == s.baseline
           && next.failures == (if first then 1 else s.failures)
           && next.note == (if first then UnsupportedOnce else UnsupportedTwice)
         case Answer(resources, partial) =>
           var held := !partial && HeldAnswer(s, resources);
           && next.supported && next.baseline == (s.baseline || !held)
           && next.failures == (if held then (if s.known then s.failures + 1 else 1)
                                else if !partial then 0 else if s.known then s.failures else 1)
           && next.note == (if partial then PartialAnswer else if held then Guarded else Healthy)
  {
    hide UpsertedAll, HashIn, Concluded, Guards, HeldAnswer;
    if poll.Answer? {
      var (resources, seen) := (poll.resources, Ids(poll.resources));
      UpsertShape(cfg, s.(scoped := s.scoped || cfg.kind == Users), resources, s.baseline, Absorbs(cfg, s));
      GuardsAsBefore(s, AfterUpserts(cfg, s, resources), seen);
      HeldIff(s, resources);
      ConcludedRow(cfg, AfterUpserts(cfg, s, resources), seen, poll.partial, s.baseline);
    }
  }

  lemma ConcludedRow(cfg: Config, stored: State, seen: set<int>, partial: bool, baselined: bool)
    ensures var (next, held) := (Concluded(cfg, stored, seen, partial, baselined), !partial && Guards(stored, seen));
      && next.known && next.supported && next.scoped == stored.scoped
      && next.baseline == (stored.baseline || !held)
      && next.failures == (if held then (if stored.known then stored.failures + 1 else 1)
                           else if !partial then 0 else if stored.known then stored.failures else 1)
      && next.note == (if partial then PartialAnswer else if held then Guarded else Healthy)
  {
    hide Guards;
  }

  lemma HeldIff(s: State, resources: seq<Resource>)
    ensures HeldAnswer(s, resources) <==> Guards(s, Ids(resources))
  {
    var missing := set id | id in s.snapshots && forall r | r in resources :: r.id != id;
    var ids := set r | r in resources :: r.id;
    forall id ensures id in ids <==> id in Ids(resources) {
      if i :| 0 <= i < |resources| && resources[i].id == id { assert resources[i] in resources; }
    }
    assert ids == Ids(resources) && missing == Absent(s, Ids(resources));
  }
}
