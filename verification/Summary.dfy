/** The digest partition: which field changes of a batch are summarised, as what, and
    which stay in the list.
 */
module Summary {
  import opened Crypto
  import opened Sets

  const FLEET_MINIMUM := 5
  const SCHEMA_MINIMUM := 2

  /** `path` is the generic path; None is an absent value. `element` marks a whole list
      element. */
  datatype Field = Field(path: string, element: bool, before: Option<string>, after: Option<string>)

  datatype Change = Change(collector: string, changed: bool, fields: seq<Field>, truncated: bool)

  datatype Ref = Ref(change: nat, field: nat)

  /** A batch, the population of each collector, the fields already in share lines, and
      the severity classification. */
  datatype Input = Input(changes: seq<Change>, population: string -> nat, shares: set<Ref>,
          high: (string, Field) -> bool)

  predicate Valid(changes: seq<Change>, r: Ref) {
    r.change < |changes| && r.field < |changes[r.change].fields|
  }

  function Row(change: nat, fields: nat): (r: seq<Ref>)
    ensures |r| == fields && forall i | 0 <= i < fields :: r[i] == Ref(change, i)
  {
    seq(fields, i requires 0 <= i < fields => Ref(change, i))
  }

  /** Every field of every change, in order. */
  function Refs(changes: seq<Change>): seq<Ref> {
    if changes == [] then [] else Refs(changes[..|changes| - 1]) + Row(|changes| - 1, |changes[|changes| - 1].fields|)
  }

  /** By change, then by field. */
  predicate Earlier(a: Ref, b: Ref) {
    a.change < b.change || (a.change == b.change && a.field < b.field)
  }

  ghost predicate InOrder(refs: seq<Ref>) {
    forall i, j | 0 <= i < j < |refs| :: Earlier(refs[i], refs[j])
  }

  lemma {:induction false} RefsCover(changes: seq<Change>)
    ensures forall r :: r in Refs(changes) <==> Valid(changes, r)
    ensures InOrder(Refs(changes))
    decreases |changes|
  {
    if changes != [] {
      var n := |changes| - 1;
      RefsCover(changes[..n]);
      var before, row := Refs(changes[..n]), Row(n, |changes[n].fields|);
      forall r ensures r in before + row <==> Valid(changes, r) {
        if Valid(changes, r) && r.change == n { assert row[r.field] == r; }
        if r in row { var i :| 0 <= i < |row| && row[i] == r; }
        assert r in before <==> Valid(changes[..n], r);
      }
      forall i | 0 <= i < |before| ensures before[i].change < n { assert before[i] in before; }
    }
  }

  // ---------------------------------------------------------------- grouping

  /** The refs with one key. */
  function Group<K(==)>(refs: seq<Ref>, keyOf: Ref -> Option<K>, key: K): (g: seq<Ref>)
    ensures forall r :: r in g <==> r in refs && keyOf(r) == Some(key)
  {
    if refs == [] then []
    else
      var n := |refs| - 1;
      assert refs == refs[..n] + [refs[n]];
      Group(refs[..n], keyOf, key) + (if keyOf(refs[n]) == Some(key) then [refs[n]] else [])
  }

  lemma {:induction false} GroupInOrder<K>(refs: seq<Ref>, keyOf: Ref -> Option<K>, key: K)
    requires InOrder(refs)
    ensures InOrder(Group(refs, keyOf, key))
    decreases |refs|
  {
    if refs != [] {
      var n := |refs| - 1;
      GroupInOrder(refs[..n], keyOf, key);
      var before := Group(refs[..n], keyOf, key);
      forall i | 0 <= i < |before| ensures Earlier(before[i], refs[n]) {
        assert before[i] in before;
        var j :| 0 <= j < n && refs[..n][j] == before[i];
        assert refs[j] == before[i];
      }
    }
  }

  /** The changed resources of some refs, in order. */
  function Resources(refs: seq<Ref>): seq<nat> {
    if refs == [] then []
    else
      var before := Resources(refs[..|refs| - 1]);
      var change := refs[|refs| - 1].change;
      if before == [] || before[|before| - 1] != change then before + [change] else before
  }

  /** Each resource once. */
  lemma {:induction false} ResourcesDistinct(refs: seq<Ref>)
    requires InOrder(refs)
    ensures var r := Resources(refs);
      && (forall i, j | 0 <= i < j < |r| :: r[i] < r[j])
      && (forall c :: c in r <==> exists i | 0 <= i < |refs| :: refs[i].change == c)
      && (refs != [] ==> r != [] && r[|r| - 1] == refs[|refs| - 1].change)
    decreases |refs|
  {
    if refs != [] {
      var n := |refs| - 1;
      ResourcesDistinct(refs[..n]);
      var before, r := Resources(refs[..n]), Resources(refs);
      forall c ensures c in r <==> exists i | 0 <= i < |refs| :: refs[i].change == c {
        if c in before { var i :| 0 <= i < n && refs[..n][i].change == c; assert refs[i].change == c; }
        if i :| 0 <= i < |refs| && refs[i].change == c { if i < n { assert refs[..n][i].change == c && c in before; } }
      }
      if n > 0 { assert refs[n - 1].change <= refs[n].change && refs[..n][n - 1] == refs[n - 1]; }
    }
  }

  lemma ResourcesSnoc(refs: seq<Ref>, last: Ref)
    requires InOrder(refs)
    ensures |Resources(refs + [last])| == |Resources(refs)|
        + (if refs == [] || refs[|refs| - 1].change != last.change then 1 else 0)
  {
    assert (refs + [last])[..|refs|] == refs;
    ResourcesDistinct(refs);
  }

  lemma GroupSnoc<K>(refs: seq<Ref>, keyOf: Ref -> Option<K>, key: K, i: nat)
    requires i < |refs|
    ensures Group(refs[..i + 1], keyOf, key) == Group(refs[..i], keyOf, key)
        + (if keyOf(refs[i]) == Some(key) then [refs[i]] else [])
  {
    assert refs[..i + 1][..i] == refs[..i];
  }

  lemma InOrderPrefix(refs: seq<Ref>, i: nat)
    requires InOrder(refs) && i <= |refs|
    ensures InOrder(refs[..i])
  {
  }

  ghost predicate Collects<K(!new)>(refs: seq<Ref>, keyOf: Ref -> Option<K>, groups: map<K, seq<Ref>>, counts: map<K,
          nat>) {
    && groups.Keys == counts.Keys
    && (forall k :: Group(refs, keyOf, k) == if k in groups then groups[k] else [])
    && (forall k | k in groups :: groups[k] != [] && counts[k] == |Resources(groups[k])|)
  }

  lemma CollectNone<K(!new)>(keyOf: Ref -> Option<K>)
    ensures Collects([], keyOf, map[], map[])
  {
  }

  /** One more field: its group grows, and the count only when the resource is new. */
  lemma CollectOne<K(!new)>(refs: seq<Ref>, keyOf: Ref -> Option<K>, groups: map<K, seq<Ref>>, counts: map<K, nat>,
          i: nat, key: K)
    requires InOrder(refs) && i < |refs| && keyOf(refs[i]) == Some(key) && Collects(refs[..i], keyOf, groups, counts)
    ensures var group := if key in groups then groups[key] else [];
      var count := if key in counts then counts[key] else 0;
      var next := if group == [] || group[|group| - 1].change != refs[i].change then count + 1 else count;
      Collects(refs[..i + 1], keyOf, groups[key := group + [refs[i]]], counts[key := next])
  {
    hide Resources, InOrder, Group;
    var group := if key in groups then groups[key] else [];
    InOrderPrefix(refs, i);
    GroupInOrder(refs[..i], keyOf, key);
    ResourcesSnoc(group, refs[i]);
    NoResources();
    var grown := groups[key := group + [refs[i]]];
    forall k ensures Group(refs[..i + 1], keyOf, k) == if k in grown then grown[k] else [] {
      GroupSnoc(refs, keyOf, k, i);
    }
  }

  lemma CollectOther<K(!new)>(refs: seq<Ref>, keyOf: Ref -> Option<K>, groups: map<K, seq<Ref>>, counts: map<K, nat>,
          i: nat)
    requires i < |refs| && keyOf(refs[i]).None? && Collects(refs[..i], keyOf, groups, counts)
    ensures Collects(refs[..i + 1], keyOf, groups, counts)
  {
    hide Resources, Group;
    forall k ensures Group(refs[..i + 1], keyOf, k) == Group(refs[..i], keyOf, k) { GroupSnoc(refs, keyOf, k, i); }
  }

  /** One pass over the fields: the group of every key and how many resources it has. */
  method Collect<K(!new,==)>(refs: seq<Ref>, keyOf: Ref -> Option<K>)
    returns (groups: map<K, seq<Ref>>, counts: map<K, nat>)
    requires InOrder(refs)
    ensures Collects(refs, keyOf, groups, counts)
  {
    hide Collects, InOrder;
    groups, counts := map[], map[];
    CollectNone(keyOf);
    assert refs[..0] == [];
    for i := 0 to |refs|
      invariant Collects(refs[..i], keyOf, groups, counts)
    {
      var r := refs[i];
      var key := keyOf(r);
      if key.Some? {
        CollectOne(refs, keyOf, groups, counts, i, key.value);
        var group := if key.value in groups then groups[key.value] else [];
        var count := if key.value in counts then counts[key.value] else 0;
        if |group| == 0 || group[|group| - 1].change != r.change { count := count + 1; }
        groups, counts := groups[key.value := group + [r]], counts[key.value := count];
      } else {
        CollectOther(refs, keyOf, groups, counts, i);
      }
    }
    assert refs[..|refs|] == refs;
  }

  lemma NoResources()
    ensures Resources([]) == []
  {
  }

  // ---------------------------------------------------------------- schema changes and fleet transitions

  datatype SchemaKey = SchemaKey(collector: string, path: string, added: bool)

  datatype FleetKey = FleetKey(collector: string, field: Field)

  function FieldOf(changes: seq<Change>, r: Ref): Field
    requires Valid(changes, r)
  {
    changes[r.change].fields[r.field]
  }

  /** A field that appears or disappears on a changed resource. */
  function SchemaKeyOf(input: Input): Ref -> Option<SchemaKey> {
    (r: Ref) =>
      if !Valid(input.changes, r) || !input.changes[r.change].changed || r in input.shares then None
      else
        var f := FieldOf(input.changes, r);
        if f.before.None? == f.after.None? || f.element then None
        else Some(SchemaKey(input.changes[r.change].collector, f.path, f.after.Some?))
  }

  function SchemaGroup(input: Input, key: SchemaKey): seq<Ref> {
    Group(Refs(input.changes), SchemaKeyOf(input), key)
  }

  /** The same field appeared or disappeared on the whole population, and it is not one
      of high severity. */
  predicate IsSchemaChange(input: Input, key: SchemaKey) {
    var group := SchemaGroup(input, key);
    && group != [] && Valid(input.changes, group[0])
    && input.population(key.collector) >= SCHEMA_MINIMUM
    && |Resources(group)| == input.population(key.collector)
    && !input.high(key.collector, FieldOf(input.changes, group[0]))
  }

  predicate InSchema(input: Input, r: Ref) {
    var key := SchemaKeyOf(input)(r);
    key.Some? && IsSchemaChange(input, key.value)
  }

  /** A transition left over by shares and schema changes. */
  function FleetKeyOf(input: Input, taken: set<Ref>): Ref -> Option<FleetKey> {
    (r: Ref) =>
      if !Valid(input.changes, r) || !input.changes[r.change].changed || r in taken
          || FieldOf(input.changes, r).element then None
      else Some(FleetKey(input.changes[r.change].collector, FieldOf(input.changes, r)))
  }

  function FleetGroup(input: Input, taken: set<Ref>, key: FleetKey): seq<Ref> {
    Group(Refs(input.changes), FleetKeyOf(input, taken), key)
  }

  predicate InFleet(input: Input, taken: set<Ref>, r: Ref) {
    var key := FleetKeyOf(input, taken)(r);
    key.Some? && |Resources(FleetGroup(input, taken, key.value))| >= FLEET_MINIMUM
  }

  /** One fleet line: a collector and the resources that share its transitions. */
  datatype FleetLine = FleetLine(collector: string, resources: seq<nat>)

  // ---------------------------------------------------------------- the list that remains

  function KeptFields(fields: seq<Field>, change: nat, removed: set<Ref>): (r: seq<Field>)
    ensures |r| <= |fields|
    ensures r == [] <==> forall i | 0 <= i < |fields| :: Ref(change, i) in removed
    ensures |r| == |fields| <==> forall i | 0 <= i < |fields| :: Ref(change, i) !in removed
  {
    if fields == [] then []
    else
      var n := |fields| - 1;
      KeptFields(fields[..n], change, removed) + (if Ref(change, n) in removed then [] else [fields[n]])
  }

  /** A change leaves the list only when it lost its last field and none of its fields
      was cut off when it was stored. */
  predicate Dropped(change: Change, index: nat, removed: set<Ref>) {
    var kept := KeptFields(change.fields, index, removed);
    |kept| != |change.fields| && kept == [] && !change.truncated
  }

  function Remaining(changes: seq<Change>, removed: set<Ref>): seq<Change> {
    if changes == [] then []
    else
      var n := |changes| - 1;
      Remaining(changes[..n], removed)
        + (if Dropped(changes[n], n, removed) then []
            else [changes[n].(fields := KeptFields(changes[n].fields, n, removed))])
  }

  ghost predicate Distinct(s: seq<nat>) {
    forall i, j | 0 <= i < j < |s| :: s[i] < s[j]
  }

  /** All fields of a change are summarised, and it has some and none was cut off. */
  ghost predicate Gone(change: Change, index: nat, removed: set<Ref>) {
    change.fields != [] && !change.truncated && forall i | 0 <= i < |change.fields| :: Ref(index, i) in removed
  }

  /** Positions of the kept fields of a change. */
  ghost predicate Keeps(change: Change, index: nat, removed: set<Ref>, kept: Change, at: seq<nat>) {
    && kept == change.(fields := kept.fields)
    && |at| == |kept.fields| && Distinct(at)
    && (forall m | 0 <= m < |at| :: at[m] < |change.fields| && kept.fields[m] == change.fields[at[m]])
    && (forall f: nat :: f in at <==> f < |change.fields| && Ref(index, f) !in removed)
  }

  /** `remaining` lists, in their order, the changes at `ix`, each with exactly its
      unsummarised fields, in their order; the changes that are missing are those that
      lost everything. */
  ghost predicate Lists(changes: seq<Change>, removed: set<Ref>, remaining: seq<Change>, ix: seq<nat>,
          at: seq<seq<nat>>) {
    && |ix| == |remaining| && |at| == |remaining| && Distinct(ix)
    && (forall k | 0 <= k < |ix| :: ix[k] < |changes| && Keeps(changes[ix[k]], ix[k], removed, remaining[k], at[k]))
    && (forall c | 0 <= c < |changes| :: c !in ix <==> Gone(changes[c], c, removed))
  }

  ghost predicate FieldsAt(fields: seq<Field>, change: nat, removed: set<Ref>, kept: seq<Field>, at: seq<nat>) {
    && |at| == |kept| && Distinct(at)
    && (forall m | 0 <= m < |at| :: at[m] < |fields| && kept[m] == fields[at[m]])
    && (forall f: nat :: f in at <==> f < |fields| && Ref(change, f) !in removed)
  }

  lemma FieldsAtSnoc(fields: seq<Field>, change: nat, removed: set<Ref>, kept: seq<Field>, at: seq<nat>, last: Field)
    requires FieldsAt(fields, change, removed, kept, at)
    ensures var n := |fields|;
      if Ref(change, n) in removed then FieldsAt(fields + [last], change, removed, kept, at)
      else FieldsAt(fields + [last], change, removed, kept + [last], at + [n])
  {
    var n := |fields|;
    assert forall m | 0 <= m < |at| :: at[m] in at;
    assert forall f :: f in at + [n] <==> f in at || f == n;
  }

  lemma NoFieldsAt(change: nat, removed: set<Ref>)
    ensures FieldsAt([], change, removed, [], []) && KeptFields([], change, removed) == []
  {
  }

  lemma KeptSnoc(fields: seq<Field>, last: Field, change: nat, removed: set<Ref>)
    ensures KeptFields(fields + [last], change, removed) ==
      if Ref(change, |fields|) in removed then KeptFields(fields, change, removed)
      else KeptFields(fields, change, removed) + [last]
  {
    assert (fields + [last])[..|fields|] == fields;
  }

  lemma {:induction false} FieldsKept(fields: seq<Field>, change: nat, removed: set<Ref>) returns (at: seq<nat>)
    ensures FieldsAt(fields, change, removed, KeptFields(fields, change, removed), at)
    decreases |fields|
  {
    hide FieldsAt, KeptFields;
    if fields == [] {
      at := [];
      NoFieldsAt(change, removed);
    } else {
      var n := |fields| - 1;
      var before, last := fields[..n], fields[n];
      assert fields == before + [last];
      at := FieldsKept(before, change, removed);
      FieldsAtSnoc(before, change, removed, KeptFields(before, change, removed), at, last);
      KeptSnoc(before, last, change, removed);
      if Ref(change, n) !in removed { at := at + [n]; }
    }
  }

  lemma ChangeKept(change: Change, index: nat, removed: set<Ref>) returns (at: seq<nat>)
    ensures Dropped(change, index, removed) <==> Gone(change, index, removed)
    ensures Keeps(change, index, removed, change.(fields := KeptFields(change.fields, index, removed)), at)
  {
    hide KeptFields;
    at := FieldsKept(change.fields, index, removed);
  }

  /** What remains is the listed changes and fields, and nothing else is missing. */
  lemma {:induction false} RemainingLists(changes: seq<Change>, removed: set<Ref>)
    returns (ix: seq<nat>, at: seq<seq<nat>>)
    ensures Lists(changes, removed, Remaining(changes, removed), ix, at)
    decreases |changes|
  {
    hide KeptFields, Keeps, Dropped, Gone;
    ix, at := [], [];
    if changes != [] {
      var n := |changes| - 1;
      ix, at := RemainingLists(changes[..n], removed);
      var before := Remaining(changes[..n], removed);
      var positions := ChangeKept(changes[n], n, removed);
      assert forall c | 0 <= c < n :: changes[..n][c] == changes[c];
      assert forall k | 0 <= k < |ix| :: ix[k] < |changes[..n]|;
      if Dropped(changes[n], n, removed) {
        assert Remaining(changes, removed) == before;
      } else {
        var last := changes[n].(fields := KeptFields(changes[n].fields, n, removed));
        assert Remaining(changes, removed) == before + [last];
        ix, at := ix + [n], at + [positions];
      }
    }
  }

  // ---------------------------------------------------------------- summarize

  /** How a batch is divided. */
  ghost predicate Divides(input: Input, schema: map<SchemaKey, seq<nat>>, fleet: map<FleetLine, set<FleetKey>>,
                          inSchema: set<Ref>, inFleet: set<Ref>, remaining: seq<Change>)
  {
    && (forall r :: r in inSchema <==> r in Refs(input.changes) && InSchema(input, r))
    && (forall r :: r in inFleet <==> r in Refs(input.changes) && InFleet(input, input.shares + inSchema, r))
    && (forall key :: key in schema <==> IsSchemaChange(input, key))
    && (forall key | key in schema :: schema[key] == Resources(SchemaGroup(input, key)))
    && (forall line, key :: line in fleet && key in fleet[line] <==>
          && |Resources(FleetGroup(input, input.shares + inSchema, key))| >= FLEET_MINIMUM
          && line == FleetLine(key.collector, Resources(FleetGroup(input, input.shares + inSchema, key))))
    && remaining == Remaining(input.changes, input.shares + inSchema + inFleet)
  }

  method Summarize(input: Input) returns (schema: map<SchemaKey, seq<nat>>, fleet: map<FleetLine, set<FleetKey>>,
                                          inSchema: set<Ref>, inFleet: set<Ref>, remaining: seq<Change>)
    ensures Divides(input, schema, fleet, inSchema, inFleet, remaining)
  {
    hide Group, Resources, InOrder, Refs, Collects, Remaining;
    var refs := Refs(input.changes);
    RefsCover(input.changes);
    schema, inSchema := SchemaChanges(input, refs);
    fleet, inFleet := FleetTransitions(input, refs, input.shares + inSchema);
    remaining := Remains(input.changes, input.shares + inSchema + inFleet);
  }

  method SchemaChanges(input: Input, refs: seq<Ref>) returns (schema: map<SchemaKey, seq<nat>>, taken: set<Ref>)
    requires refs == Refs(input.changes) && InOrder(refs)
    ensures forall key :: key in schema <==> IsSchemaChange(input, key)
    ensures forall key | key in schema :: schema[key] == Resources(SchemaGroup(input, key))
    ensures forall r :: r in taken <==> r in refs && InSchema(input, r)
  {
    hide Group, Resources, InOrder, Refs;
    var groups, counts := Collect(refs, SchemaKeyOf(input));
    SchemaGroupsValid(input);
    schema := map key | key in groups
      && input.population(key.collector) >= SCHEMA_MINIMUM && counts[key] == input.population(key.collector)
      && Valid(input.changes, groups[key][0]) && !input.high(key.collector, FieldOf(input.changes, groups[key][0]))
      :: Resources(groups[key]);
    forall key ensures key in schema <==> IsSchemaChange(input, key) {
      if SchemaGroup(input, key) != [] { FirstKeyed(refs, SchemaKeyOf(input), key); }
    }
    taken := set r | r in refs && SchemaKeyOf(input)(r).Some? && SchemaKeyOf(input)(r).value in schema;
  }

  lemma SchemaGroupsValid(input: Input)
    ensures forall key, r | r in SchemaGroup(input, key) :: Valid(input.changes, r)
  {
    RefsCover(input.changes);
  }

  lemma FirstKeyed<K>(refs: seq<Ref>, keyOf: Ref -> Option<K>, key: K)
    requires Group(refs, keyOf, key) != []
    ensures exists r :: r in refs && keyOf(r) == Some(key)
  {
    hide Group;
    var r := Group(refs, keyOf, key)[0];
    assert r in Group(refs, keyOf, key);
  }

  function LineOf(groups: map<FleetKey, seq<Ref>>, key: FleetKey): FleetLine {
    FleetLine(key.collector, if key in groups then Resources(groups[key]) else [])
  }

  /** Transitions that cover the same resources are merged into one line. */
  method FleetTransitions(input: Input, refs: seq<Ref>, before: set<Ref>)
    returns (fleet: map<FleetLine, set<FleetKey>>, taken: set<Ref>)
    requires refs == Refs(input.changes) && InOrder(refs)
    ensures forall r :: r in taken <==> r in refs && InFleet(input, before, r)
    ensures forall line, key :: line in fleet && key in fleet[line] <==>
      && |Resources(FleetGroup(input, before, key))| >= FLEET_MINIMUM
      && line == FleetLine(key.collector, Resources(FleetGroup(input, before, key)))
  {
    hide Group, Resources, InOrder, Refs;
    var groups, counts := Collect(refs, FleetKeyOf(input, before));
    var large := set key | key in groups && counts[key] >= FLEET_MINIMUM;
    NoResources();
    forall key ensures key in large <==> |Resources(FleetGroup(input, before, key))| >= FLEET_MINIMUM {
      if FleetGroup(input, before, key) != [] { FirstKeyed(refs, FleetKeyOf(input, before), key); }
    }
    var lines := set key | key in large :: LineOf(groups, key);
    fleet := map line | line in lines :: set key | key in large && LineOf(groups, key) == line;
    taken := set r | r in refs && FleetKeyOf(input, before)(r).Some? && FleetKeyOf(input, before)(r).value in large;
  }

  method Remains(changes: seq<Change>, removed: set<Ref>) returns (remaining: seq<Change>)
    ensures remaining == Remaining(changes, removed)
  {
    remaining := [];
    for i := 0 to |changes|
      invariant remaining == Remaining(changes[..i], removed)
    {
      assert changes[..i + 1][..i] == changes[..i];
      var kept := KeptFields(changes[i].fields, i, removed);
      if |kept| == |changes[i].fields| {
        assert kept == changes[i].fields by { AllKept(changes[i].fields, i, removed); }
        remaining := remaining + [changes[i]];
      } else if |kept| > 0 || changes[i].truncated {
        remaining := remaining + [changes[i].(fields := kept)];
      }
    }
    assert changes[..|changes|] == changes;
  }

  lemma {:induction false} AllKept(fields: seq<Field>, change: nat, removed: set<Ref>)
    requires |KeptFields(fields, change, removed)| == |fields|
    ensures KeptFields(fields, change, removed) == fields
    decreases |fields|
  {
    if fields != [] { AllKept(fields[..|fields| - 1], change, removed); }
  }

  /** A schema summary of the key exists, covers the whole population and names the resource. */
  ghost predicate SchemaCovers(input: Input, schema: map<SchemaKey, seq<nat>>, key: SchemaKey, change: nat) {
    key in schema && change in schema[key] && Distinct(schema[key]) && |schema[key]| == input.population(key.collector)
  }

  /** Exactly one fleet line carries the key; it has enough distinct resources and names
      this one. */
  ghost predicate FleetCovers(fleet: map<FleetLine, set<FleetKey>>, key: FleetKey, change: nat) {
    exists line | line in fleet ::
      && key in fleet[line] && (forall other | other in fleet && key in fleet[other] :: other == line)
      && change in line.resources && Distinct(line.resources) && |line.resources| >= FLEET_MINIMUM
  }

  /** Field m of entry k of the remaining list is the field `r` of the batch. */
  predicate ListedAt(ix: seq<nat>, at: seq<seq<nat>>, r: Ref, k: nat, m: nat) {
    k < |ix| && k < |at| && m < |at[k]| && ix[k] == r.change && at[k][m] == r.field
  }

  predicate ExactlyOne(a: bool, b: bool, c: bool, d: bool) {
    (a || b || c || d) && !(a && b) && !(a && c) && !(a && d) && !(b && c) && !(b && d) && !(c && d)
  }

  lemma ListedOnce(changes: seq<Change>, removed: set<Ref>, remaining: seq<Change>, ix: seq<nat>, at: seq<seq<nat>>,
          r: Ref)
    requires Lists(changes, removed, remaining, ix, at) && Valid(changes, r)
    ensures (exists k: nat, m: nat :: ListedAt(ix, at, r, k, m)) <==> r !in removed
    ensures forall k: nat, m: nat, i: nat, j: nat | ListedAt(ix, at, r, k, m) && ListedAt(ix, at, r, i, j) ::
        k == i && m == j
  {
    if k: nat, m: nat :| ListedAt(ix, at, r, k, m) {
      assert Keeps(changes[ix[k]], ix[k], removed, remaining[k], at[k]);
      assert at[k][m] in at[k];
    }
    if r !in removed {
      assert !Gone(changes[r.change], r.change, removed);
      var k :| 0 <= k < |ix| && ix[k] == r.change;
      assert Keeps(changes[ix[k]], ix[k], removed, remaining[k], at[k]);
      var m :| 0 <= m < |at[k]| && at[k][m] == r.field;
      assert ListedAt(ix, at, r, k, m);
    }
  }

  /** Every field of every change is in exactly one place: a share line, one schema
      summary, one fleet line, or one position of the remaining list. A schema summary
      covers the whole population and a fleet line at least five distinct resources, which
      include the field's own. */
  lemma EveryFieldOnce(input: Input, schema: map<SchemaKey, seq<nat>>, fleet: map<FleetLine, set<FleetKey>>,
                       inSchema: set<Ref>, inFleet: set<Ref>, remaining: seq<Change>, ix: seq<nat>, at: seq<seq<nat>>,
                           r: Ref)
    requires Divides(input, schema, fleet, inSchema, inFleet, remaining) && Valid(input.changes, r)
    requires Lists(input.changes, input.shares + inSchema + inFleet, remaining, ix, at)
    ensures ExactlyOne(r in input.shares, r in inSchema, r in inFleet, exists k: nat, m: nat ::
        ListedAt(ix, at, r, k, m))
    ensures forall k: nat, m: nat, i: nat, j: nat | ListedAt(ix, at, r, k, m) && ListedAt(ix, at, r, i, j) ::
        k == i && m == j
    ensures r in inSchema ==>
      SchemaKeyOf(input)(r).Some? && SchemaCovers(input, schema, SchemaKeyOf(input)(r).value, r.change)
    ensures r in inFleet ==>
      FleetKeyOf(input, input.shares + inSchema)(r).Some?
          && FleetCovers(fleet, FleetKeyOf(input, input.shares + inSchema)(r).value, r.change)
  {
    hide Group, Resources, Refs, Remaining, Lists, ListedAt;
    RefsCover(input.changes);
    var taken := input.shares + inSchema;
    ListedOnce(input.changes, taken + inFleet, remaining, ix, at, r);
    if r in inSchema {
      var key := SchemaKeyOf(input)(r).value;
      GroupDistinct(input, SchemaKeyOf(input), key, r);
    }
    if r in inFleet {
      var key := FleetKeyOf(input, taken)(r).value;
      GroupDistinct(input, FleetKeyOf(input, taken), key, r);
      var line := FleetLine(key.collector, Resources(FleetGroup(input, taken, key)));
      assert line in fleet && key in fleet[line];
    }
  }

  /** There is such a list for what a division leaves. */
  lemma DivisionLists(input: Input, schema: map<SchemaKey, seq<nat>>, fleet: map<FleetLine, set<FleetKey>>,
                      inSchema: set<Ref>, inFleet: set<Ref>, remaining: seq<Change>)
                          returns (ix: seq<nat>, at: seq<seq<nat>>)
    requires Divides(input, schema, fleet, inSchema, inFleet, remaining)
    ensures Lists(input.changes, input.shares + inSchema + inFleet, remaining, ix, at)
  {
    hide Lists, Refs, Group, Resources;
    ix, at := RemainingLists(input.changes, input.shares + inSchema + inFleet);
  }

  lemma GroupDistinct<K>(input: Input, keyOf: Ref -> Option<K>, key: K, r: Ref)
    requires Valid(input.changes, r) && keyOf(r) == Some(key)
    ensures var resources := Resources(Group(Refs(input.changes), keyOf, key));
      Distinct(resources) && r.change in resources
  {
    hide Group, Resources, Refs;
    RefsCover(input.changes);
    GroupInOrder(Refs(input.changes), keyOf, key);
    var group := Group(Refs(input.changes), keyOf, key);
    ResourcesDistinct(group);
    assert r in group;
    var i :| 0 <= i < |group| && group[i] == r;
    assert group[i].change == r.change;
  }

  // ---------------------------------------------------------------- what is summarised, said on the fields

  /** A field that appears or disappears on a changed resource, that no share line has, and
      that is not a whole list element. */
  predicate Appears(input: Input, r: Ref) {
    && Valid(input.changes, r) && input.changes[r.change].changed && r !in input.shares
    && FieldOf(input.changes, r).before.None? != FieldOf(input.changes, r).after.None?
    && !FieldOf(input.changes, r).element
  }

  /** The same field appears, or disappears, on a resource of the same collector. */
  predicate AppearsAlike(input: Input, a: Ref, b: Ref) {
    && Appears(input, a) && Appears(input, b)
    && input.changes[a.change].collector == input.changes[b.change].collector
    && FieldOf(input.changes, a).path == FieldOf(input.changes, b).path
    && FieldOf(input.changes, a).after.Some? == FieldOf(input.changes, b).after.Some?
  }

  /** The first field of the batch that appears alike. */
  ghost predicate FirstAlike(input: Input, r: Ref, first: Ref) {
    && AppearsAlike(input, r, first)
    && forall other | AppearsAlike(input, r, other) :: other == first || Earlier(first, other)
  }

  /** The changed resources that have such a field. */
  function ChangesOf(changes: seq<Change>, like: Ref -> bool): set<int> {
    set c: int, f: int | 0 <= c < |changes| && 0 <= f < |changes[c].fields| && like(Ref(c, f)) :: c
  }

  lemma ResourcesAre<K>(changes: seq<Change>, keyOf: Ref -> Option<K>, key: K, like: Ref -> bool)
    requires forall r | Valid(changes, r) :: like(r) <==> keyOf(r) == Some(key)
    ensures |Resources(Group(Refs(changes), keyOf, key))| == |ChangesOf(changes, like)|
  {
    hide Group, Refs, InOrder;
    RefsCover(changes);
    GroupInOrder(Refs(changes), keyOf, key);
    var group := Group(Refs(changes), keyOf, key);
    var resources := Resources(group);
    ResourcesDistinct(group);
    var indices: seq<int> := resources;
    DistinctSize(indices);
    forall c ensures c in resources <==> c in ChangesOf(changes, like) {
      if c in resources {
        var i :| 0 <= i < |group| && group[i].change == c;
        assert group[i] in group && Valid(changes, group[i]) && like(Ref(c, group[i].field));
      }
      if c in ChangesOf(changes, like) {
        var f :| 0 <= f < |changes[c].fields| && like(Ref(c, f));
        assert Valid(changes, Ref(c, f)) && Ref(c, f) in group;
        var i :| 0 <= i < |group| && group[i] == Ref(c, f);
        assert group[i].change == c;
      }
    }
    assert (set c | c in indices) == ChangesOf(changes, like);
  }

  lemma AlikeIsKey(input: Input, r: Ref, other: Ref)
    requires Valid(input.changes, r) && Valid(input.changes, other)
    ensures SchemaKeyOf(input)(r).Some? <==> Appears(input, r)
    ensures Appears(input, r) ==>
      (AppearsAlike(input, r, other) <==> SchemaKeyOf(input)(other) == SchemaKeyOf(input)(r))
      && SchemaKeyOf(input)(r).value.collector == input.changes[r.change].collector
  {
  }

  lemma FirstOfGroup(input: Input, r: Ref, first: Ref)
    requires Appears(input, r) && FirstAlike(input, r, first)
    ensures var group := SchemaGroup(input, SchemaKeyOf(input)(r).value); group != [] && group[0] == first
  {
    hide Group, Refs, Appears;
    RefsCover(input.changes);
    AppearsValid(input, r);
    AlikeIsKey(input, r, r);
    var key := SchemaKeyOf(input)(r).value;
    GroupInOrder(Refs(input.changes), SchemaKeyOf(input), key);
    var group := SchemaGroup(input, key);
    AppearsValid(input, first);
    AlikeIsKey(input, r, first);
    assert first in group;
    assert group[0] in group;
    AlikeIsKey(input, r, group[0]);
    var i :| 0 <= i < |group| && group[i] == first;
    assert i > 0 ==> Earlier(group[0], group[i]);
  }

  lemma AppearsValid(input: Input, r: Ref)
    ensures Appears(input, r) ==> Valid(input.changes, r)
  {
  }

  /** A field is summarised as an upstream schema change if and only if the same field
      appears, or disappears, on as many resources as its collector has, which are two or
      more, and the first such field of the batch is not of high severity. */
  lemma InSchemaIff(input: Input, r: Ref, first: Ref)
    requires Appears(input, r) && FirstAlike(input, r, first)
    ensures Valid(input.changes, r) && Valid(input.changes, first)
    ensures var collector := input.changes[r.change].collector;
      InSchema(input, r) <==>
        && input.population(collector) >= 2
        && |ChangesOf(input.changes, (other: Ref) => AppearsAlike(input, r, other))| == input.population(collector)
        && !input.high(collector, FieldOf(input.changes, first))
  {
    hide Group, Resources, Refs, Appears;
    AppearsValid(input, r);
    AppearsValid(input, first);
    AlikeIsKey(input, r, r);
    var like := (other: Ref) => AppearsAlike(input, r, other);
    var key := SchemaKeyOf(input)(r).value;
    forall other | Valid(input.changes, other) ensures like(other) <==> SchemaKeyOf(input)(other) == Some(key) {
      AlikeIsKey(input, r, other);
    }
    ResourcesAre(input.changes, SchemaKeyOf(input), key, like);
    FirstOfGroup(input, r, first);
  }

  lemma OnlyAppearing(input: Input, r: Ref)
    ensures InSchema(input, r) ==> Appears(input, r)
  {
  }

  /** A high-severity field is kept out of the schema summaries when the severity of a field
      is that of every other one that appears alike; otherwise the first one decides. */
  lemma HighStaysListed(input: Input, r: Ref)
    requires Appears(input, r)
    requires Valid(input.changes, r) && input.high(input.changes[r.change].collector, FieldOf(input.changes, r))
    requires forall other | AppearsAlike(input, r, other) ::
      Valid(input.changes, other) && input.high(input.changes[r.change].collector, FieldOf(input.changes, other))
    ensures !InSchema(input, r)
  {
    hide Group, Resources, Refs, Appears, AppearsAlike;
    SchemaGroupsValid(input);
    var key := SchemaKeyOf(input)(r);
    AlikeIsKey(input, r, r);
    var group := SchemaGroup(input, key.value);
    if group != [] {
      assert group[0] in group;
      AlikeIsKey(input, r, group[0]);
    }
  }

  /** The same field newly present on both devices of a tailnet, first with a routine value,
      then with one of high severity: the second is summarised although it is high. */
  lemma HighSummarised(input: Input, collector: string, path: string, routine: string, sensitive: string)
    requires var quiet, loud := Field(path, false, None, Some(routine)), Field(path, false, None, Some(sensitive));
      && input.changes == [Change(collector, true, [quiet], false), Change(collector, true, [loud], false)]
      && input.population(collector) == 2 && input.shares == {}
      && !input.high(collector, quiet) && input.high(collector, loud)
    ensures InSchema(input, Ref(1, 0))
  {
    var first, second := Ref(0, 0), Ref(1, 0);
    assert Appears(input, first) && Appears(input, second) && AppearsAlike(input, second, first);
    forall other | AppearsAlike(input, second, other) ensures other == first || Earlier(first, other) {
      assert Valid(input.changes, other);
    }
    InSchemaIff(input, second, first);
    var like := (other: Ref) => AppearsAlike(input, second, other);
    forall c: int ensures c in ChangesOf(input.changes, like) <==> c in {0, 1} {
      if c == 0 { assert like(Ref(0, 0)); }
      if c == 1 { assert like(Ref(1, 0)); }
    }
    assert ChangesOf(input.changes, like) == {0, 1};
  }

  /** A field that neither a share line nor a schema summary has, on a changed resource. */
  predicate Left(input: Input, taken: set<Ref>, r: Ref) {
    && Valid(input.changes, r) && input.changes[r.change].changed && r !in taken && !FieldOf(input.changes, r).element
  }

  /** The same transition, with the same values, on a resource of the same collector. */
  predicate MovesAlike(input: Input, taken: set<Ref>, a: Ref, b: Ref) {
    && Left(input, taken, a) && Left(input, taken, b)
    && input.changes[a.change].collector == input.changes[b.change].collector
    && FieldOf(input.changes, a) == FieldOf(input.changes, b)
  }

  /** A field is in a fleet line if and only if it was left over and the same transition
      happened on five or more resources of its collector. */
  lemma InFleetIff(input: Input, taken: set<Ref>, r: Ref)
    ensures InFleet(input, taken, r) <==>
      Left(input, taken, r) && |ChangesOf(input.changes, (other: Ref) => MovesAlike(input, taken, r, other))| >= 5
  {
    hide Group, Resources, Refs;
    var key := FleetKeyOf(input, taken)(r);
    if key.Some? {
      var like := (other: Ref) => MovesAlike(input, taken, r, other);
      ResourcesAre(input.changes, FleetKeyOf(input, taken), key.value, like);
    }
  }
}
