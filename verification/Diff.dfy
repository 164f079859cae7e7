/** The field changes between two JSON trees, and what an empty list of them means.
 */
module Diff {
  import opened Crypto
  import opened Json

  /** Where a value stands, without element identities. */
  datatype Step = Field(name: string) | Element

  datatype Seg = Key(name: string) | Elem(id: string)

  /** One reported change; None is an absent value. */
  datatype Change = Change(path: seq<Seg>, before: Option<Json>, after: Option<Json>)

  /** The identity keys in order of preference, and the places where a collector keeps
      the order of a list. */
  datatype Env = Env(keys: seq<string>, ordered: seq<Step> -> bool)

  /** A path whose text is empty: the root, or empty field names under it. */
  predicate Blank(at: seq<Step>) {
    forall i | 0 <= i < |at| :: at[i] == Field("")
  }

  predicate NilLike(v: Option<Json>) {
    v.None? || v.value.Null?
  }

  function Items(v: Option<Json>): seq<Json> {
    if v.Some? && v.value.List? then v.value.items else []
  }

  /** The key by which two values are compared element by element, if they are. */
  function Keying(env: Env, at: seq<Step>, a: Option<Json>, b: Option<Json>): (r: Option<string>)
    ensures r.Some? ==> r.value in env.keys && Identified(r.value, Items(a)) && Identified(r.value, Items(b))
  {
    var aList, bList := a.Some? && a.value.List?, b.Some? && b.value.List?;
    if env.ordered(at) then None
    else if aList && bList then ArrayIdentity(env.keys, Items(a), Items(b))
    else if !Blank(at) && NilLike(a) && Items(b) != [] then ArrayIdentity(env.keys, [], Items(b))
    else if !Blank(at) && NilLike(b) && Items(a) != [] then ArrayIdentity(env.keys, Items(a), [])
    else None
  }

  function Prefixed(seg: Seg, cs: seq<Change>): (r: seq<Change>)
    ensures |r| == |cs| && forall i | 0 <= i < |r| :: r[i] == Change([seg] + cs[i].path, cs[i].before, cs[i].after)
  {
    seq(|cs|, i requires 0 <= i < |cs| => Change([seg] + cs[i].path, cs[i].before, cs[i].after))
  }

  /** Identities of both lists, in order. */
  function AllIds(key: string, a: seq<Json>, b: seq<Json>): seq<string> {
    SortedKeys(IdSet(key, a) + IdSet(key, b))
  }

  /** A change in which one side is absent is one value, or one value per element of an
      identified list. */
  function OneSided(env: Env, at: seq<Step>, a: Option<Json>, b: Option<Json>): seq<Change> {
    match Keying(env, at, a, b)
    case Some(key) => SidedElements(key, Items(a), Items(b), AllIds(key, Items(a), Items(b)))
    case None => [Change([], a, b)]
  }

  function SidedElements(key: string, a: seq<Json>, b: seq<Json>, ids: seq<string>): seq<Change> {
    if ids == [] then []
    else
      var id := ids[|ids| - 1];
      SidedElements(key, a, b, ids[..|ids| - 1]) + [Change([Elem(id)], Lookup(key, a, id), Lookup(key, b, id))]
  }

  /** The changes between two present values. */
  function Both(env: Env, at: seq<Step>, a: Json, b: Json): seq<Change>
    decreases a, 1, 0
  {
    if a.Obj? && b.Obj? then ObjectChanges(env, at, a, b, SortedKeys(a.fields.Keys + b.fields.Keys))
    else match Keying(env, at, Some(a), Some(b))
      case Some(key) => ElementChanges(env, at, key, a, b, AllIds(key, Items(Some(a)), Items(Some(b))))
      case None => if a == b then [] else [Change([], Some(a), Some(b))]
  }

  function ObjectChanges(env: Env, at: seq<Step>, a: Json, b: Json, names: seq<string>): seq<Change>
    requires a.Obj? && b.Obj?
    decreases a, 0, |names|
  {
    if names == [] then []
    else
      var name := names[|names| - 1];
      var changes :=
        if name in a.fields && name in b.fields then Both(env, at + [Field(name)], a.fields[name], b.fields[name])
        else OneSided(env, at + [Field(name)], Get(a.fields, name), Get(b.fields, name));
      ObjectChanges(env, at, a, b, names[..|names| - 1]) + Prefixed(Key(name), changes)
  }

  function ElementChanges(env: Env, at: seq<Step>, key: string, a: Json, b: Json, ids: seq<string>): seq<Change>
    decreases a, 0, |ids|
  {
    if ids == [] then []
    else
      var id := ids[|ids| - 1];
      var x, y := Items(Some(a)), Items(Some(b));
      var i, j := Position(key, x, id), Position(key, y, id);
      var changes :=
        if i < |x| && j < |y| then Both(env, at + [Element], a.items[i], b.items[j])
        else OneSided(env, at + [Element], Lookup(key, x, id), Lookup(key, y, id));
      ElementChanges(env, at, key, a, b, ids[..|ids| - 1]) + Prefixed(Elem(id), changes)
  }

  function Changes(env: Env, at: seq<Step>, a: Option<Json>, b: Option<Json>): seq<Change> {
    if a.None? && b.None? then []
    else if a.Some? && b.Some? then Both(env, at, a.value, b.value)
    else OneSided(env, at, a, b)
  }

  // ---------------------------------------------------------------- equality up to reordering

  /** Equal, up to the order of identified lists where that order is not kept. */
  ghost predicate Equiv(env: Env, at: seq<Step>, a: Json, b: Json)
    decreases a
  {
    || a == b
    || (a.Obj? && b.Obj? && a.fields.Keys == b.fields.Keys
        && forall k | k in a.fields && k in b.fields :: Equiv(env, at + [Field(k)], a.fields[k], b.fields[k]))
    || (a.List? && b.List? && !env.ordered(at) && exists key | key in env.keys ::
          && Matched(key, a.items, b.items)
          && forall i, j | 0 <= i < |a.items| && 0 <= j < |b.items|
              && Identity(key, a.items[i]) == Identity(key, b.items[j]) ::
               Equiv(env, at + [Element], a.items[i], b.items[j]))
  }

  /** The key identifies both lists and they have the same identities. */
  ghost predicate Matched(key: string, a: seq<Json>, b: seq<Json>) {
    Identified(key, a) && Identified(key, b) && IdSet(key, a) == IdSet(key, b)
  }

  ghost predicate EquivOption(env: Env, at: seq<Step>, a: Option<Json>, b: Option<Json>) {
    if a.Some? && b.Some? then Equiv(env, at, a.value, b.value) else a == b
  }

  // ---------------------------------------------------------------- field by field, element by element

  /** The changes of one field. */
  function FieldChanges(env: Env, at: seq<Step>, a: Json, b: Json, name: string): seq<Change>
    requires a.Obj? && b.Obj?
  {
    Changes(env, at + [Field(name)], Get(a.fields, name), Get(b.fields, name))
  }

  /** The changes of one identity. */
  function IdChanges(env: Env, at: seq<Step>, key: string, a: seq<Json>, b: seq<Json>, id: string): seq<Change> {
    Changes(env, at + [Element], Lookup(key, a, id), Lookup(key, b, id))
  }

  lemma ObjectSnoc(env: Env, at: seq<Step>, a: Json, b: Json, names: seq<string>)
    requires a.Obj? && b.Obj? && names != []
    requires var name := names[|names| - 1]; name in a.fields || name in b.fields
    ensures var n := |names| - 1;
      ObjectChanges(env, at, a, b, names) == ObjectChanges(env, at, a, b, names[..n])
          + Prefixed(Key(names[n]), FieldChanges(env, at, a, b, names[n]))
  {
    hide Both, OneSided;
  }

  lemma ElementSnoc(env: Env, at: seq<Step>, key: string, a: Json, b: Json, ids: seq<string>)
    requires ids != []
    requires var id := ids[|ids| - 1]; HasId(key, Items(Some(a)), id) || HasId(key, Items(Some(b)), id)
    ensures var n := |ids| - 1;
      ElementChanges(env, at, key, a, b, ids) ==
        ElementChanges(env, at, key, a, b, ids[..n])
            + Prefixed(Elem(ids[n]), IdChanges(env, at, key, Items(Some(a)), Items(Some(b)), ids[n]))
  {
    hide Both, OneSided, Identity;
  }

  lemma {:induction false} NoObjectChanges(env: Env, at: seq<Step>, a: Json, b: Json, names: seq<string>)
    requires a.Obj? && b.Obj? && forall name | name in names :: name in a.fields || name in b.fields
    ensures ObjectChanges(env, at, a, b, names) == []
        <==> forall name | name in names :: FieldChanges(env, at, a, b, name) == []
    decreases |names|
  {
    hide FieldChanges, ObjectChanges;
    if names == [] {
      NothingToCompare(env, at, a, b);
    } else {
      var n := |names| - 1;
      assert names == names[..n] + [names[n]];
      assert names[n] in names;
      ObjectSnoc(env, at, a, b, names);
      NoObjectChanges(env, at, a, b, names[..n]);
    }
  }

  lemma NothingToCompare(env: Env, at: seq<Step>, a: Json, b: Json)
    requires a.Obj? && b.Obj?
    ensures ObjectChanges(env, at, a, b, []) == []
  {
  }

  lemma {:induction false} NoElementChanges(env: Env, at: seq<Step>, key: string, a: Json, b: Json, ids: seq<string>)
    requires forall id | id in ids :: HasId(key, Items(Some(a)), id) || HasId(key, Items(Some(b)), id)
    ensures ElementChanges(env, at, key, a, b, ids) == [] <==>
      forall id | id in ids :: IdChanges(env, at, key, Items(Some(a)), Items(Some(b)), id) == []
    decreases |ids|
  {
    hide IdChanges, Items, HasId, ElementChanges;
    if ids == [] {
      NoIdsToCompare(env, at, key, a, b);
    } else {
      var n := |ids| - 1;
      assert ids == ids[..n] + [ids[n]];
      assert ids[n] in ids;
      ElementSnoc(env, at, key, a, b, ids);
      NoElementChanges(env, at, key, a, b, ids[..n]);
    }
  }

  lemma NoIdsToCompare(env: Env, at: seq<Step>, key: string, a: Json, b: Json)
    ensures ElementChanges(env, at, key, a, b, []) == []
  {
  }

  lemma {:induction false} SidedCount(key: string, a: seq<Json>, b: seq<Json>, ids: seq<string>)
    ensures |SidedElements(key, a, b, ids)| == |ids|
    ensures forall i | 0 <= i < |ids| ::
        SidedElements(key, a, b, ids)[i] == Change([Elem(ids[i])], Lookup(key, a, ids[i]), Lookup(key, b, ids[i]))
    decreases |ids|
  {
    hide Lookup;
    if ids != [] { SidedCount(key, a, b, ids[..|ids| - 1]); }
  }

  /** An appearance or disappearance is always reported. */
  lemma OneSidedReports(env: Env, at: seq<Step>, a: Option<Json>, b: Option<Json>)
    requires a.None? != b.None?
    ensures OneSided(env, at, a, b) != []
  {
    hide Identified, SortedKeys, Usable, Blank;
    var key := Keying(env, at, a, b);
    if key.Some? {
      var ids := AllIds(key.value, Items(a), Items(b));
      SidedCount(key.value, Items(a), Items(b), ids);
      var item := if a.Some? then Items(a)[0] else Items(b)[0];
      KeyedHasIds(key.value, if a.Some? then Items(a) else Items(b));
      assert Identity(key.value, item).value in IdSet(key.value, Items(a)) + IdSet(key.value, Items(b));
    }
  }

  lemma KeyedHasIds(key: string, items: seq<Json>)
    requires Identified(key, items)
    ensures forall i | 0 <= i < |items| ::
        Identity(key, items[i]).Some? && Identity(key, items[i]).value in IdSet(key, items)
  {
  }

  // ---------------------------------------------------------------- no change means equal

  lemma {:induction false} SameNoChanges(env: Env, at: seq<Step>, a: Json)
    ensures Both(env, at, a, a) == []
    decreases a
  {
    hide SortedKeys, Usable, Blank, Identified;
    if a.Obj? {
      var names := SortedKeys(a.fields.Keys + a.fields.Keys);
      forall name | name in names ensures FieldChanges(env, at, a, a, name) == [] {
        SameNoChanges(env, at + [Field(name)], a.fields[name]);
      }
      NoObjectChanges(env, at, a, a, names);
    } else if Keying(env, at, Some(a), Some(a)).Some? {
      var key := Keying(env, at, Some(a), Some(a)).value;
      var ids := AllIds(key, Items(Some(a)), Items(Some(a)));
      forall id | id in ids
        ensures HasId(key, Items(Some(a)), id) && IdChanges(env, at, key, Items(Some(a)), Items(Some(a)), id) == []
      {
        IdSetHas(key, Items(Some(a)), id);
        var i := Position(key, Items(Some(a)), id);
        SameNoChanges(env, at + [Element], a.items[i]);
      }
      NoElementChanges(env, at, key, a, a, ids);
    }
  }

  /** Whichever key matches two lists element by element, the key the comparison uses
      matches the same elements. */
  lemma OtherKeyMatches(env: Env, at: seq<Step>, a: seq<Json>, b: seq<Json>, key: string, other: string)
    requires Matched(other, a, b) && Identified(key, a) && Identified(key, b)
    requires forall i, j | 0 <= i < |a| && 0 <= j < |b| && Identity(other, a[i]) == Identity(other, b[j]) ::
        Equiv(env, at, a[i], b[j])
    ensures IdSet(key, a) == IdSet(key, b)
    ensures forall i, j | 0 <= i < |a| && 0 <= j < |b| && Identity(key, a[i]) == Identity(key, b[j]) ::
        Equiv(env, at, a[i], b[j])
  {
    hide Equiv, Usable;
    forall i | 0 <= i < |a|
      ensures HasPartner(key, a[i], b) && exists j | 0 <= j < |b| ::
          Identity(key, a[i]) == Identity(key, b[j]) && Equiv(env, at, a[i], b[j])
    {
      var j := Partner(other, a, b, i);
      EquivKeepsIdentity(env, at, key, a[i], b[j]);
    }
    forall j | 0 <= j < |b| ensures HasPartner(key, b[j], a) {
      var i := Partner(other, b, a, j);
      assert Equiv(env, at, a[i], b[j]);
      EquivKeepsIdentity(env, at, key, a[i], b[j]);
    }
    SameIds(key, a, b);
    forall i, j | 0 <= i < |a| && 0 <= j < |b| && Identity(key, a[i]) == Identity(key, b[j])
      ensures Equiv(env, at, a[i], b[j])
    {
      var k :| 0 <= k < |b| && Identity(key, a[i]) == Identity(key, b[k]) && Equiv(env, at, a[i], b[k]);
      assert Identity(key, b[k]) == Identity(key, b[j]);
    }
  }

  predicate HasPartner(key: string, item: Json, items: seq<Json>) {
    exists j | 0 <= j < |items| :: Identity(key, item) == Identity(key, items[j])
  }

  lemma SameIds(key: string, a: seq<Json>, b: seq<Json>)
    requires forall i | 0 <= i < |a| :: HasPartner(key, a[i], b)
    requires forall j | 0 <= j < |b| :: HasPartner(key, b[j], a)
    ensures IdSet(key, a) == IdSet(key, b)
  {
    hide Identity;
    forall id ensures id in IdSet(key, a) <==> id in IdSet(key, b) {
      if i :| 0 <= i < |a| && Identity(key, a[i]) == Some(id) { assert HasPartner(key, a[i], b); }
      if j :| 0 <= j < |b| && Identity(key, b[j]) == Some(id) { assert HasPartner(key, b[j], a); }
    }
  }

  lemma Partner(key: string, a: seq<Json>, b: seq<Json>, i: nat) returns (j: nat)
    requires i < |a| && Identified(key, a) && IdSet(key, a) == IdSet(key, b)
    ensures j < |b| && Identity(key, a[i]) == Identity(key, b[j])
  {
    hide Identity;
    var id := Identity(key, a[i]).value;
    assert id in IdSet(key, a);
    j :| 0 <= j < |b| && Identity(key, b[j]).Some? && Identity(key, b[j]).value == id;
  }

  /** Equivalent objects have equal scalar fields, so the same identity. */
  lemma EquivKeepsIdentity(env: Env, at: seq<Step>, key: string, a: Json, b: Json)
    requires Equiv(env, at, a, b) && Identity(key, a).Some?
    ensures Identity(key, b) == Identity(key, a)
  {
    hide Usable;
    if a != b {
      assert Equiv(env, at + [Field(key)], a.fields[key], b.fields[key]);
    }
  }

  /** No change is reported if and only if the values are equal up to the order of
      identified lists whose order is not kept. */
  lemma {:induction false} NoChangeIffEquivalent(env: Env, at: seq<Step>, a: Json, b: Json)
    ensures Both(env, at, a, b) == [] <==> Equiv(env, at, a, b)
    decreases a
  {
    hide Both, Equiv, Keying;
    if a == b {
      SameNoChanges(env, at, a);
      assert Equiv(env, at, a, b) by { EquivReflexive(env, at, a); }
    } else if a.Obj? && b.Obj? {
      ObjectIff(env, at, a, b);
    } else if Keying(env, at, Some(a), Some(b)).Some? {
      KeyedIff(env, at, a, b, Keying(env, at, Some(a), Some(b)).value);
    } else {
      LeafIff(env, at, a, b);
    }
  }

  lemma EquivReflexive(env: Env, at: seq<Step>, a: Json)
    ensures Equiv(env, at, a, a)
  {
  }

  lemma LeafIff(env: Env, at: seq<Step>, a: Json, b: Json)
    requires a != b && !(a.Obj? && b.Obj?) && Keying(env, at, Some(a), Some(b)).None?
    ensures Both(env, at, a, b) != [] && !Equiv(env, at, a, b)
  {
    hide Identified, Blank, IdSet;
  }

  lemma FieldIff(env: Env, at: seq<Step>, a: Json, b: Json, name: string)
    requires a.Obj? && b.Obj? && (name in a.fields || name in b.fields)
    ensures FieldChanges(env, at, a, b, name) == [] <==>
      name in a.fields && name in b.fields && Equiv(env, at + [Field(name)], a.fields[name], b.fields[name])
    decreases a, 0
  {
    hide Both, Equiv, OneSided;
    if name in a.fields && name in b.fields {
      NoChangeIffEquivalent(env, at + [Field(name)], a.fields[name], b.fields[name]);
    } else {
      OneSidedReports(env, at + [Field(name)], Get(a.fields, name), Get(b.fields, name));
    }
  }

  lemma ObjectIff(env: Env, at: seq<Step>, a: Json, b: Json)
    requires a != b && a.Obj? && b.Obj?
    ensures Both(env, at, a, b) == [] <==> Equiv(env, at, a, b)
    decreases a, 1
  {
    hide SortedKeys, FieldChanges, ObjectChanges;
    var names := SortedKeys(a.fields.Keys + b.fields.Keys);
    NoObjectChanges(env, at, a, b, names);
    forall name | name in names
      ensures FieldChanges(env, at, a, b, name) == [] <==>
        name in a.fields && name in b.fields && Equiv(env, at + [Field(name)], a.fields[name], b.fields[name])
    {
      FieldIff(env, at, a, b, name);
    }
    if Both(env, at, a, b) == [] {
      forall k ensures k in a.fields <==> k in b.fields {
        if k in a.fields || k in b.fields { assert k in names; }
      }
      assert a.fields.Keys == b.fields.Keys;
    }
  }

  lemma IdIff(env: Env, at: seq<Step>, key: string, a: Json, b: Json, id: string)
    requires a.List? && b.List?
    requires HasId(key, a.items, id) || HasId(key, b.items, id)
    ensures IdChanges(env, at, key, a.items, b.items, id) == [] <==>
      HasId(key, a.items, id) && HasId(key, b.items, id)
      && Equiv(env, at + [Element], Lookup(key, a.items, id).value, Lookup(key, b.items, id).value)
    decreases a, 0
  {
    hide Both, Equiv, OneSided, Identity;
    var i, j := Position(key, a.items, id), Position(key, b.items, id);
    if i < |a.items| && j < |b.items| {
      NoChangeIffEquivalent(env, at + [Element], a.items[i], b.items[j]);
    } else {
      OneSidedReports(env, at + [Element], Lookup(key, a.items, id), Lookup(key, b.items, id));
    }
  }

  /** Two lists compared by a key. */
  lemma KeyedIff(env: Env, at: seq<Step>, a: Json, b: Json, key: string)
    requires a != b && !(a.Obj? && b.Obj?) && Keying(env, at, Some(a), Some(b)) == Some(key)
    ensures Both(env, at, a, b) == [] <==> Equiv(env, at, a, b)
    decreases a, 2
  {
    hide Equiv, SortedKeys, Identity, Identified, Position, Lookup, HasId, Blank, IdChanges, ElementChanges, OneSided;
    if a.List? && b.List? {
      ListIff(env, at, a, b, key);
    } else {
      NilIff(env, at, a, b, key);
    }
  }

  /** A list that appears from null or disappears into it. */
  lemma NilIff(env: Env, at: seq<Step>, a: Json, b: Json, key: string)
    requires a.List? != b.List? && Keying(env, at, Some(a), Some(b)) == Some(key)
    ensures Both(env, at, a, b) != [] && !Equiv(env, at, a, b)
    decreases a, 0
  {
    hide SortedKeys, IdChanges, ElementChanges, Identified, Blank, IdSet, Equiv, Identity;
    var x, y := Items(Some(a)), Items(Some(b));
    var ids := AllIds(key, x, y);
    forall id | id in ids ensures HasId(key, x, id) || HasId(key, y, id) { IdSetHas(key, x, id); IdSetHas(key, y, id); }
    NoElementChanges(env, at, key, a, b, ids);
    var some := if a.List? then x else y;
    KeyedHasIds(key, some);
    var id := Identity(key, some[0]).value;
    assert id in ids;
    NilSide(env, at, key, x, y, id);
    NilNotEquiv(env, at, a, b);
  }

  lemma NilNotEquiv(env: Env, at: seq<Step>, a: Json, b: Json)
    requires a.List? != b.List?
    ensures !Equiv(env, at, a, b)
  {
  }

  lemma NilSide(env: Env, at: seq<Step>, key: string, x: seq<Json>, y: seq<Json>, id: string)
    requires (x == []) != (y == []) && (HasId(key, x, id) || HasId(key, y, id))
    ensures IdChanges(env, at, key, x, y, id) != []
  {
    hide Both, OneSided, Identity;
    OneSidedReports(env, at + [Element], Lookup(key, x, id), Lookup(key, y, id));
  }

  lemma ListIff(env: Env, at: seq<Step>, a: Json, b: Json, key: string)
    requires a != b && a.List? && b.List? && Keying(env, at, Some(a), Some(b)) == Some(key)
    ensures Both(env, at, a, b) == [] <==> Equiv(env, at, a, b)
    decreases a, 1
  {
    hide Equiv, SortedKeys, Identity, Identified, Position, Lookup, HasId, Blank, IdChanges, ElementChanges, OneSided,
        IdSet, ArrayIdentity;
    var ids := AllIds(key, a.items, b.items);
    forall id | id in ids ensures HasId(key, a.items, id) || HasId(key, b.items, id) {
      IdSetHas(key, a.items, id); IdSetHas(key, b.items, id);
    }
    NoElementChanges(env, at, key, a, b, ids);
    forall id | id in ids
      ensures IdChanges(env, at, key, a.items, b.items, id) == [] <==>
        HasId(key, a.items, id) && HasId(key, b.items, id)
        && Equiv(env, at + [Element], Lookup(key, a.items, id).value, Lookup(key, b.items, id).value)
    {
      IdIff(env, at, key, a, b, id);
    }
    if Both(env, at, a, b) == [] {
      AllMatched(env, at, a, b, key);
    }
    if Equiv(env, at, a, b) {
      MatchedAll(env, at, a, b, key);
    }
  }

  /** Every identity is in both lists with equivalent elements, so the lists are equivalent. */
  lemma AllMatched(env: Env, at: seq<Step>, a: Json, b: Json, key: string)
    requires a.List? && b.List? && key in env.keys && !env.ordered(at) && Identified(key, a.items)
        && Identified(key, b.items)
    requires forall id | id in AllIds(key, a.items, b.items) ::
      HasId(key, a.items, id) && HasId(key, b.items, id)
      && Equiv(env, at + [Element], Lookup(key, a.items, id).value, Lookup(key, b.items, id).value)
    ensures Equiv(env, at, a, b)
  {
    hide Identity, SortedKeys;
    var ids := AllIds(key, a.items, b.items);
    forall id ensures id in IdSet(key, a.items) <==> id in IdSet(key, b.items) {
      IdSetHas(key, a.items, id); IdSetHas(key, b.items, id);
      if id in IdSet(key, a.items) || id in IdSet(key, b.items) { assert id in ids; }
    }
    assert Matched(key, a.items, b.items);
    forall i, j | 0 <= i < |a.items| && 0 <= j < |b.items| && Identity(key, a.items[i]) == Identity(key, b.items[j])
      ensures Equiv(env, at + [Element], a.items[i], b.items[j])
    {
      var id := Identity(key, a.items[i]).value;
      KeyedHasIds(key, a.items);
      assert id in ids;
      LookupAt(key, a.items, i);
      LookupAt(key, b.items, j);
    }
  }

  /** The key by which two different lists are equivalent. */
  lemma MatchingKey(env: Env, at: seq<Step>, a: Json, b: Json) returns (other: string)
    requires a.List? && b.List? && a != b && Equiv(env, at, a, b)
    ensures other in env.keys && Matched(other, a.items, b.items)
    ensures forall i, j | 0 <= i < |a.items| && 0 <= j < |b.items|
        && Identity(other, a.items[i]) == Identity(other, b.items[j]) ::
      Equiv(env, at + [Element], a.items[i], b.items[j])
  {
    hide Identity, Matched;
    other :| other in env.keys && Matched(other, a.items, b.items)
      && forall i, j | 0 <= i < |a.items| && 0 <= j < |b.items|
          && Identity(other, a.items[i]) == Identity(other, b.items[j]) ::
           Equiv(env, at + [Element], a.items[i], b.items[j]);
  }

  lemma MatchedAll(env: Env, at: seq<Step>, a: Json, b: Json, key: string)
    requires a.List? && b.List? && a != b && Equiv(env, at, a, b) && Identified(key, a.items)
        && Identified(key, b.items)
    ensures IdSet(key, a.items) == IdSet(key, b.items)
    ensures forall id | id in AllIds(key, a.items, b.items) ::
      HasId(key, a.items, id) && HasId(key, b.items, id)
      && Equiv(env, at + [Element], Lookup(key, a.items, id).value, Lookup(key, b.items, id).value)
  {
    hide Identity, SortedKeys;
    var other := MatchingKey(env, at, a, b);
    OtherKeyMatches(env, at + [Element], a.items, b.items, key, other);
    forall id | id in AllIds(key, a.items, b.items)
      ensures HasId(key, a.items, id) && HasId(key, b.items, id)
      ensures Equiv(env, at + [Element], Lookup(key, a.items, id).value, Lookup(key, b.items, id).value)
    {
      IdSetHas(key, a.items, id); IdSetHas(key, b.items, id);
    }
  }

  // ---------------------------------------------------------------- the order of the changes

  /** The text of a segment; names and identities are compared as texts. */
  function TextOf(seg: Seg): string {
    match seg
    case Key(name) => name
    case Elem(id) => id
  }

  /** Paths in order: at the first segment where they part, by its text. */
  predicate PathAtMost(a: seq<Seg>, b: seq<Seg>) {
    || a == [] || b == []
    || (if a[0] == b[0] then PathAtMost(a[1..], b[1..]) else AtMost(TextOf(a[0]), TextOf(b[0])))
  }

  ghost predicate InPathOrder(cs: seq<Change>) {
    forall i, j | 0 <= i < j < |cs| :: PathAtMost(cs[i].path, cs[j].path)
  }

  /** The changes all lie under one of the texts. */
  ghost predicate UnderTexts(cs: seq<Change>, texts: seq<string>) {
    forall c | c in cs :: c.path != [] && TextOf(c.path[0]) in texts
  }

  lemma PrefixedInOrder(seg: Seg, cs: seq<Change>)
    requires InPathOrder(cs)
    ensures InPathOrder(Prefixed(seg, cs)) && UnderTexts(Prefixed(seg, cs), [TextOf(seg)])
  {
    var r := Prefixed(seg, cs);
    forall i, j | 0 <= i < j < |r| ensures PathAtMost(r[i].path, r[j].path) {
      assert r[i].path[1..] == cs[i].path && r[j].path[1..] == cs[j].path;
    }
  }

  lemma JoinedInOrder(a: seq<Change>, b: seq<Change>, texts: seq<string>, last: string)
    requires InPathOrder(a) && InPathOrder(b) && UnderTexts(a, texts) && UnderTexts(b, [last])
    requires forall t | t in texts :: AtMost(t, last) && t != last
    ensures InPathOrder(a + b) && UnderTexts(a + b, texts + [last])
  {
    hide AtMost;
    forall i, j | 0 <= i < |a| && 0 <= j < |b| ensures PathAtMost(a[i].path, b[j].path) {
      assert a[i] in a && b[j] in b;
    }
  }

  lemma OneMoreInOrder(before: seq<Change>, texts: seq<string>, seg: Seg, changes: seq<Change>)
    requires InPathOrder(before) && UnderTexts(before, texts) && InPathOrder(changes)
    requires forall t | t in texts :: AtMost(t, TextOf(seg)) && t != TextOf(seg)
    ensures InPathOrder(before + Prefixed(seg, changes))
    ensures UnderTexts(before + Prefixed(seg, changes), texts + [TextOf(seg)])
  {
    hide AtMost, InPathOrder, UnderTexts, Prefixed;
    PrefixedInOrder(seg, changes);
    JoinedInOrder(before, Prefixed(seg, changes), texts, TextOf(seg));
  }

  lemma OneInOrder(c: Change)
    ensures InPathOrder([c]) && InPathOrder([])
  {
  }

  lemma {:induction false} SidedInOrder(key: string, a: seq<Json>, b: seq<Json>, ids: seq<string>)
    requires forall i, j | 0 <= i < j < |ids| :: ids[i] != ids[j] && AtMost(ids[i], ids[j])
    ensures InPathOrder(SidedElements(key, a, b, ids)) && UnderTexts(SidedElements(key, a, b, ids), ids)
    decreases |ids|
  {
    hide AtMost, Lookup;
    if ids != [] {
      var n := |ids| - 1;
      SidedInOrder(key, a, b, ids[..n]);
      var last := [Change([Elem(ids[n])], Lookup(key, a, ids[n]), Lookup(key, b, ids[n]))];
      assert ids == ids[..n] + [ids[n]];
      JoinedInOrder(SidedElements(key, a, b, ids[..n]), last, ids[..n], ids[n]);
    }
  }

  lemma OneSidedInOrder(env: Env, at: seq<Step>, a: Option<Json>, b: Option<Json>)
    ensures InPathOrder(OneSided(env, at, a, b))
  {
    hide Keying, InPathOrder, AtMost, IdSet;
    match Keying(env, at, a, b)
    case Some(key) => SidedInOrder(key, Items(a), Items(b), AllIds(key, Items(a), Items(b)));
    case None => OneInOrder(Change([], a, b));
  }

  /** The changes of one field that both or one of the objects have. */
  function FieldAt(env: Env, at: seq<Step>, a: Json, b: Json, name: string): seq<Change>
    requires a.Obj? && b.Obj?
  {
    if name in a.fields && name in b.fields then Both(env, at + [Field(name)], a.fields[name], b.fields[name])
    else OneSided(env, at + [Field(name)], Get(a.fields, name), Get(b.fields, name))
  }

  lemma FieldLast(env: Env, at: seq<Step>, a: Json, b: Json, names: seq<string>)
    requires a.Obj? && b.Obj? && names != []
    ensures var n := |names| - 1;
      ObjectChanges(env, at, a, b, names) ==
        ObjectChanges(env, at, a, b, names[..n]) + Prefixed(Key(names[n]), FieldAt(env, at, a, b, names[n]))
  {
    hide Both, OneSided, Get;
  }

  lemma {:induction false} ObjectInOrder(env: Env, at: seq<Step>, a: Json, b: Json, names: seq<string>)
    requires a.Obj? && b.Obj?
    requires forall i, j | 0 <= i < j < |names| :: names[i] != names[j] && AtMost(names[i], names[j])
    ensures InPathOrder(ObjectChanges(env, at, a, b, names)) && UnderTexts(ObjectChanges(env, at, a, b, names), names)
    decreases a, 0, |names|
  {
    hide AtMost, OneSided, Both, InPathOrder, UnderTexts, Prefixed, Get;
    if names == [] {
      assert InPathOrder([]) && UnderTexts([], []) by { NoneInOrder(); }
    } else {
      var n := |names| - 1;
      var name := names[n];
      ObjectInOrder(env, at, a, b, names[..n]);
      if name in a.fields && name in b.fields {
        BothInOrder(env, at + [Field(name)], a.fields[name], b.fields[name]);
      } else {
        OneSidedInOrder(env, at + [Field(name)], Get(a.fields, name), Get(b.fields, name));
      }
      FieldLast(env, at, a, b, names);
      OneMoreInOrder(ObjectChanges(env, at, a, b, names[..n]), names[..n], Key(name), FieldAt(env, at, a, b, name));
      assert names == names[..n] + [name];
    }
  }

  lemma NoneInOrder()
    ensures InPathOrder([]) && UnderTexts([], [])
  {
  }

  /** The changes of the elements with one identity. */
  function ElementAt(env: Env, at: seq<Step>, key: string, a: Json, b: Json, id: string): seq<Change> {
    var x, y := Items(Some(a)), Items(Some(b));
    var i, j := Position(key, x, id), Position(key, y, id);
    if i < |x| && j < |y| then Both(env, at + [Element], a.items[i], b.items[j])
    else OneSided(env, at + [Element], Lookup(key, x, id), Lookup(key, y, id))
  }

  lemma ElementLast(env: Env, at: seq<Step>, key: string, a: Json, b: Json, ids: seq<string>)
    requires ids != []
    ensures var n := |ids| - 1;
      ElementChanges(env, at, key, a, b, ids) ==
        ElementChanges(env, at, key, a, b, ids[..n]) + Prefixed(Elem(ids[n]), ElementAt(env, at, key, a, b, ids[n]))
  {
    hide Both, OneSided, Position, Lookup;
  }

  lemma {:induction false} ElementsInOrder(env: Env, at: seq<Step>, key: string, a: Json, b: Json, ids: seq<string>)
    requires forall i, j | 0 <= i < j < |ids| :: ids[i] != ids[j] && AtMost(ids[i], ids[j])
    ensures InPathOrder(ElementChanges(env, at, key, a, b, ids))
    ensures UnderTexts(ElementChanges(env, at, key, a, b, ids), ids)
    decreases a, 0, |ids|
  {
    hide AtMost, OneSided, Both, InPathOrder, UnderTexts, Identity, Prefixed;
    if ids == [] {
      assert InPathOrder([]) && UnderTexts([], []) by { NoneInOrder(); }
    } else {
      var n := |ids| - 1;
      var id := ids[n];
      ElementsInOrder(env, at, key, a, b, ids[..n]);
      var x, y := Items(Some(a)), Items(Some(b));
      var i, j := Position(key, x, id), Position(key, y, id);
      if i < |x| && j < |y| {
        BothInOrder(env, at + [Element], a.items[i], b.items[j]);
      } else {
        OneSidedInOrder(env, at + [Element], Lookup(key, x, id), Lookup(key, y, id));
      }
      ElementLast(env, at, key, a, b, ids);
      OneMoreInOrder(ElementChanges(env, at, key, a, b, ids[..n]), ids[..n], Elem(id),
                     ElementAt(env, at, key, a, b, id));
      assert ids == ids[..n] + [id];
    }
  }

  /** The changes of a comparison come in the order of their paths, at every level by field
      name or by element identity: a truncated list keeps the first ones of that order. */
  lemma {:induction false} BothInOrder(env: Env, at: seq<Step>, a: Json, b: Json)
    ensures InPathOrder(Both(env, at, a, b))
    decreases a, 1, 0
  {
    hide Keying, InPathOrder, AtMost, IdSet;
    if a.Obj? && b.Obj? {
      ObjectInOrder(env, at, a, b, SortedKeys(a.fields.Keys + b.fields.Keys));
    } else {
      match Keying(env, at, Some(a), Some(b))
      case Some(key) => ElementsInOrder(env, at, key, a, b, AllIds(key, Items(Some(a)), Items(Some(b))));
      case None => OneInOrder(Change([], Some(a), Some(b)));
    }
  }

  // ---------------------------------------------------------------- what is compared element by element

  /** Two lists, or away from the root a list with elements and nothing, whose order is not
      kept and whose elements one of the keys tells apart. */
  ghost predicate ByElement(env: Env, at: seq<Step>, a: Option<Json>, b: Option<Json>) {
    && !env.ordered(at)
    && (|| (a.Some? && a.value.List? && b.Some? && b.value.List?)
        || ((exists step | step in at :: step != Field(""))
            && (|| (Items(a) != [] && (b.None? || b.value == Null))
                || (Items(b) != [] && (a.None? || a.value == Null)))))
    && exists key | key in env.keys :: Identified(key, Items(a)) && Identified(key, Items(b))
  }

  /** Two different values that are not both objects are reported as one change, unless
      they are compared element by element: then every change is of one element. */
  lemma WholeUnlessByElement(env: Env, at: seq<Step>, a: Option<Json>, b: Option<Json>)
    requires a != b && !(a.Some? && b.Some? && a.value.Obj? && b.value.Obj?)
    ensures if ByElement(env, at, a, b) then forall c | c in Changes(env, at, a, b) :: c.path != [] && c.path[0].Elem?
      else Changes(env, at, a, b) == [Change([], a, b)]
  {
    hide Identified, SidedElements, ElementChanges, IdSet;
    BlankIff(at);
    match Keying(env, at, a, b)
    case None =>
    case Some(key) =>
      var ids := AllIds(key, Items(a), Items(b));
      ElementPaths(env, at, key, a, b, ids);
  }

  lemma BlankIff(at: seq<Step>)
    ensures !Blank(at) <==> exists step | step in at :: step != Field("")
  {
    if !Blank(at) {
      var i :| 0 <= i < |at| && at[i] != Field("");
      assert at[i] in at;
    }
  }

  lemma {:induction false} ElementPaths(env: Env, at: seq<Step>, key: string, a: Option<Json>, b: Option<Json>,
                                        ids: seq<string>)
    ensures forall c | c in SidedElements(key, Items(a), Items(b), ids) :: c.path != [] && c.path[0].Elem?
    ensures a.Some? && b.Some? ==>
      forall c | c in ElementChanges(env, at, key, a.value, b.value, ids) :: c.path != [] && c.path[0].Elem?
    decreases |ids|
  {
    hide Both, OneSided, Lookup;
    if ids != [] { ElementPaths(env, at, key, a, b, ids[..|ids| - 1]); }
  }
}
