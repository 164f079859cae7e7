/** Applying a complete list of field changes to the old value. A reported path holds field
    names and element identities only: the key by which elements were identified has to
    be found again.
 */
module DiffPatch {
  import opened Crypto
  import opened Json
  import opened Diff

  // ---------------------------------------------------------------- patch

  function Total(cs: seq<Change>): nat {
    if cs == [] then 0 else |cs[0].path| + Total(cs[1..])
  }

  /** The changes under one segment, with that segment removed. */
  function Sub(cs: seq<Change>, seg: Seg): (r: seq<Change>)
    ensures Total(r) + |r| <= Total(cs)
    ensures cs != [] && cs[0].path != [] ==> Total(r) < Total(cs)
    decreases |cs|
  {
    if cs == [] then []
    else
      var c := cs[0];
      var rest := Sub(cs[1..], seg);
      if c.path != [] && c.path[0] == seg then
        var first := Change(c.path[1..], c.before, c.after);
        assert ([first] + rest)[1..] == rest;
        [first] + rest
      else rest
  }

  function Names(cs: seq<Change>): set<string> {
    set i | 0 <= i < |cs| && cs[i].path != [] && cs[i].path[0].Key? :: cs[i].path[0].name
  }

  /** Identities in order of first appearance. */
  function ElementIds(cs: seq<Change>): (r: seq<string>)
    ensures forall i, j | 0 <= i < j < |r| :: r[i] != r[j]
    ensures forall id :: id in r <==> exists i | 0 <= i < |cs| ::
        cs[i].path != [] && cs[i].path[0].Elem? && cs[i].path[0].id == id
    decreases |cs|
  {
    if cs == [] then []
    else
      var n := |cs| - 1;
      var before := ElementIds(cs[..n]);
      assert forall i | 0 <= i < n :: cs[..n][i] == cs[i];
      if cs[n].path != [] && cs[n].path[0].Elem? && cs[n].path[0].id !in before then before + [cs[n].path[0].id]
      else before
  }

  function FieldsOf(v: Option<Json>): map<string, Json> {
    if v.Some? && v.value.Obj? then v.value.fields else map[]
  }

  predicate TextIs(v: Option<Json>, text: string) {
    v.Some? && (v.value.Str? || v.value.Num?) && v.value.text == text
  }

  /** A change under an element that the key may have identified: an element on one side has
      that identity, is in the old list exactly when there is an old value, and an
      element on both sides keeps the text under the key. */
  predicate ChangeFits(key: string, items: seq<Json>, c: Change)
    requires c.path != [] && c.path[0].Elem?
  {
    var id := c.path[0].id;
    if |c.path| == 1 then
      && (c.before.Some? ==> Identity(key, c.before.value) == Some(id))
      && (c.after.Some? ==> Identity(key, c.after.value) == Some(id))
      && (c.before.Some? <==> HasId(key, items, id))
    else
      c.path[1] == Key(key) ==> |c.path| == 2 && TextIs(c.before, id) && TextIs(c.after, id)
  }

  predicate KeyFits(key: string, items: seq<Json>, cs: seq<Change>) {
    Identified(key, items) && forall c | c in cs && c.path != [] && c.path[0].Elem? :: ChangeFits(key, items, c)
  }

  /** A reported path names an element by its identity alone. The key is the first one that
      fits the old list and the changes. */
  function ChooseKey(keys: seq<string>, items: seq<Json>, cs: seq<Change>): Option<string> {
    if keys == [] then None
    else if KeyFits(keys[0], items, cs) then Some(keys[0])
    else ChooseKey(keys[1..], items, cs)
  }

  /** A change at the place itself replaces the value; otherwise the changes are grouped
      by field or by element identity. A missing object or list is built from nothing. */
  function Patch(keys: seq<string>, v: Option<Json>, cs: seq<Change>): Option<Json>
    decreases Total(cs), 1, 0
  {
    if cs == [] then v
    else if cs[0].path == [] then cs[0].after
    else if cs[0].path[0].Key? then
      var fields := FieldsOf(v);
      Some(Obj(map k | k in fields.Keys + Names(cs) && Patch(keys, Get(fields, k), Sub(cs, Key(k))).Some? ::
        Patch(keys, Get(fields, k), Sub(cs, Key(k))).value))
    else
      match ChooseKey(keys, Items(v), cs)
      case None => v
      case Some(key) => Some(List(Kept(keys, key, Items(v), cs) + Added(keys, key, Items(v), ElementIds(cs), cs)))
  }

  function Opt(v: Option<Json>): seq<Json> {
    if v.Some? then [v.value] else []
  }

  function Kept(keys: seq<string>, key: string, items: seq<Json>, cs: seq<Change>): seq<Json>
    requires cs != [] && cs[0].path != []
    decreases Total(cs), 0, |items|
  {
    if items == [] then []
    else
      var n := |items| - 1;
      var id := Identity(key, items[n]);
      Kept(keys, key, items[..n], cs)
          + (if id.None? then [items[n]] else Opt(Patch(keys, Some(items[n]), Sub(cs, Elem(id.value)))))
  }

  function Added(keys: seq<string>, key: string, items: seq<Json>, ids: seq<string>, cs: seq<Change>): seq<Json>
    requires cs != [] && cs[0].path != []
    decreases Total(cs), 0, |ids|
  {
    if ids == [] then []
    else
      var n := |ids| - 1;
      Added(keys, key, items, ids[..n], cs)
          + (if HasId(key, items, ids[n]) then [] else Opt(Patch(keys, None, Sub(cs, Elem(ids[n])))))
  }

  // ---------------------------------------------------------------- what a patch cannot tell

  /** A non-empty identified list that becomes null or absent: it is reported as the loss
      of each element, exactly like a list that becomes empty. */
  predicate Lost(env: Env, at: seq<Step>, a: Option<Json>, b: Option<Json>) {
    NilLike(b) && Keying(env, at, a, b).Some?
  }

  ghost predicate Vanishes(env: Env, at: seq<Step>, a: Json, b: Json)
    decreases a
  {
    if a.Obj? && b.Obj? then
      exists k | k in a.fields ::
        if k in b.fields then Vanishes(env, at + [Field(k)], a.fields[k], b.fields[k])
        else Lost(env, at + [Field(k)], Some(a.fields[k]), None)
    else if a.List? && b.List? then
      Keying(env, at, Some(a), Some(b)).Some? &&
      var key := Keying(env, at, Some(a), Some(b)).value;
      exists i, j | 0 <= i < |a.items| && 0 <= j < |b.items|
          && Identity(key, a.items[i]) == Identity(key, b.items[j]) ::
        Vanishes(env, at + [Element], a.items[i], b.items[j])
    else Lost(env, at, Some(a), Some(b))
  }

  ghost predicate VanishesOption(env: Env, at: seq<Step>, a: Option<Json>, b: Option<Json>) {
    if a.Some? && b.Some? then Vanishes(env, at, a.value, b.value) else Lost(env, at, a, b)
  }

  // ---------------------------------------------------------------- grouping undoes prefixing

  lemma {:induction false} SubConcat(x: seq<Change>, y: seq<Change>, seg: Seg)
    ensures Sub(x + y, seg) == Sub(x, seg) + Sub(y, seg)
    decreases |x|
  {
    if x == [] {
      assert x + y == y;
    } else {
      assert (x + y)[1..] == x[1..] + y;
      SubConcat(x[1..], y, seg);
    }
  }

  lemma {:induction false} SubPrefixed(seg: Seg, cs: seq<Change>, other: Seg)
    ensures Sub(Prefixed(seg, cs), other) == if other == seg then cs else []
    decreases |cs|
  {
    if cs != [] {
      assert Prefixed(seg, cs)[1..] == Prefixed(seg, cs[1..]);
      assert ([seg] + cs[0].path)[1..] == cs[0].path;
      SubPrefixed(seg, cs[1..], other);
    }
  }

  lemma PrefixedOne(seg: Seg, before: Option<Json>, after: Option<Json>)
    ensures Prefixed(seg, [Change([], before, after)]) == [Change([seg], before, after)]
  {
    assert [seg] + [] == [seg];
  }

  lemma SubNone(seg: Seg)
    ensures Sub([], seg) == []
  {
  }

  /** Every change is under a field. */
  predicate UnderFields(cs: seq<Change>) {
    forall i | 0 <= i < |cs| :: cs[i].path != [] && cs[i].path[0].Key?
  }

  /** Every change is under an element. */
  predicate UnderElements(cs: seq<Change>) {
    forall i | 0 <= i < |cs| :: cs[i].path != [] && cs[i].path[0].Elem?
  }

  lemma {:induction false} SubObject(env: Env, at: seq<Step>, a: Json, b: Json, names: seq<string>, name: string)
    requires a.Obj? && b.Obj? && (forall n | n in names :: n in a.fields || n in b.fields)
    requires forall i, j | 0 <= i < j < |names| :: names[i] != names[j]
    ensures var cs := ObjectChanges(env, at, a, b, names);
      UnderFields(cs) && Sub(cs, Key(name)) == if name in names then FieldChanges(env, at, a, b, name) else []
    decreases |names|
  {
    hide FieldChanges, ObjectChanges, Sub, UnderFields, Prefixed;
    if names == [] {
      NothingToCompare(env, at, a, b);
      SubNone(Key(name));
      assert UnderFields([]) by { NoneUnderFields(); }
    } else {
      var n := |names| - 1;
      assert names[n] in names && names == names[..n] + [names[n]];
      ObjectSnoc(env, at, a, b, names);
      SubObject(env, at, a, b, names[..n], name);
      var last := FieldChanges(env, at, a, b, names[n]);
      SubConcat(ObjectChanges(env, at, a, b, names[..n]), Prefixed(Key(names[n]), last), Key(name));
      SubPrefixed(Key(names[n]), last, Key(name));
      MoreUnderFields(ObjectChanges(env, at, a, b, names[..n]), names[n], last);
    }
  }

  lemma NoneUnderFields()
    ensures UnderFields([])
  {
  }

  lemma MoreUnderFields(cs: seq<Change>, name: string, last: seq<Change>)
    requires UnderFields(cs)
    ensures UnderFields(cs + Prefixed(Key(name), last))
  {
  }

  lemma {:induction false} SubElements(env: Env, at: seq<Step>, key: string, a: Json, b: Json, ids: seq<string>,
          id: string)
    requires forall i | i in ids :: HasId(key, Items(Some(a)), i) || HasId(key, Items(Some(b)), i)
    requires forall i, j | 0 <= i < j < |ids| :: ids[i] != ids[j]
    ensures var cs := ElementChanges(env, at, key, a, b, ids);
      UnderElements(cs) && Sub(cs, Elem(id)) == if id in ids then
          IdChanges(env, at, key, Items(Some(a)), Items(Some(b)), id) else []
    decreases |ids|
  {
    hide IdChanges, ElementChanges, Items, HasId, Sub, UnderElements, Prefixed;
    if ids == [] {
      NoIdsToCompare(env, at, key, a, b);
      SubNone(Elem(id));
      assert UnderElements([]) by { NoneUnder(); }
    } else {
      var n := |ids| - 1;
      assert ids[n] in ids && ids == ids[..n] + [ids[n]];
      ElementSnoc(env, at, key, a, b, ids);
      SubElements(env, at, key, a, b, ids[..n], id);
      var last := IdChanges(env, at, key, Items(Some(a)), Items(Some(b)), ids[n]);
      SubConcat(ElementChanges(env, at, key, a, b, ids[..n]), Prefixed(Elem(ids[n]), last), Elem(id));
      SubPrefixed(Elem(ids[n]), last, Elem(id));
      MoreUnder(ElementChanges(env, at, key, a, b, ids[..n]), ids[n], last);
    }
  }

  lemma NoneUnder()
    ensures UnderElements([])
  {
  }

  lemma MoreUnder(cs: seq<Change>, id: string, last: seq<Change>)
    requires UnderElements(cs)
    ensures UnderElements(cs + Prefixed(Elem(id), last))
  {
  }

  /** An element that is only on one side is one change. */
  lemma OneIdChange(env: Env, at: seq<Step>, key: string, x: seq<Json>, y: seq<Json>, id: string)
    requires HasId(key, x, id) != HasId(key, y, id)
    ensures IdChanges(env, at, key, x, y, id) == [Change([], Lookup(key, x, id), Lookup(key, y, id))]
  {
    hide Blank, Usable, HasId;
    assert Lookup(key, x, id).Some? ==> Lookup(key, x, id).value.Obj?;
    assert Lookup(key, y, id).Some? ==> Lookup(key, y, id).value.Obj?;
  }

  lemma {:induction false} SubSided(env: Env, at: seq<Step>, key: string, x: seq<Json>, y: seq<Json>,
          ids: seq<string>, id: string)
    requires forall i | i in ids :: HasId(key, x, i) != HasId(key, y, i)
    requires forall i, j | 0 <= i < j < |ids| :: ids[i] != ids[j]
    ensures var cs := SidedElements(key, x, y, ids);
      UnderElements(cs) && Sub(cs, Elem(id)) == if id in ids then IdChanges(env, at, key, x, y, id) else []
    decreases |ids|
  {
    hide IdChanges, HasId, Lookup;
    if ids != [] {
      var n := |ids| - 1;
      assert ids[n] in ids && ids == ids[..n] + [ids[n]];
      SubSided(env, at, key, x, y, ids[..n], id);
      OneIdChange(env, at, key, x, y, ids[n]);
      var last := IdChanges(env, at, key, x, y, ids[n]);
      PrefixedOne(Elem(ids[n]), Lookup(key, x, ids[n]), Lookup(key, y, ids[n]));
      SubConcat(SidedElements(key, x, y, ids[..n]), Prefixed(Elem(ids[n]), last), Elem(id));
      SubPrefixed(Elem(ids[n]), last, Elem(id));
    }
  }

  // ---------------------------------------------------------------- scalars and identities

  predicate Scalar(v: Json) {
    !v.Obj? && !v.List? && !v.Null?
  }

  lemma PatchScalar(env: Env, at: seq<Step>, a: Json, b: Json)
    requires Scalar(a) && Scalar(b)
    ensures Patch(env.keys, Some(a), Both(env, at, a, b)) == Some(b)
  {
  }

  /** One field of a patched object. */
  lemma PatchedField(env: Env, at: seq<Step>, a: Json, b: Json, name: string)
    requires a.Obj? && b.Obj? && (name in a.fields || name in b.fields)
    requires Both(env, at, a, b) != []
    ensures var p := Patch(env.keys, Some(a), Both(env, at, a, b));
      && p.Some? && p.value.Obj?
      && Get(p.value.fields, name) == Patch(env.keys, Get(a.fields, name), FieldChanges(env, at, a, b, name))
  {
    hide Patch, FieldChanges, ObjectChanges, SortedKeys, Sub;
    var names := SortedKeys(a.fields.Keys + b.fields.Keys);
    var cs := ObjectChanges(env, at, a, b, names);
    SubObject(env, at, a, b, names, name);
    PatchObject(env.keys, a, cs, name);
    NameListed(cs, name);
    NoneOnlyIfAbsent(env, at, a, b, name);
  }

  lemma PatchObject(keys: seq<string>, a: Json, cs: seq<Change>, name: string)
    requires a.Obj? && UnderFields(cs) && cs != []
    ensures var p := Patch(keys, Some(a), cs);
      && p.Some? && p.value.Obj?
      && Get(p.value.fields, name) == if name in a.fields.Keys + Names(cs) then
          Patch(keys, Get(a.fields, name), Sub(cs, Key(name))) else None
  {
    hide Sub;
  }

  lemma {:induction false} NameListed(cs: seq<Change>, name: string)
    ensures Sub(cs, Key(name)) != [] ==> name in Names(cs)
    decreases |cs|
  {
    if cs != [] {
      NameListed(cs[1..], name);
      if Sub(cs[1..], Key(name)) != [] {
        assert name in Names(cs[1..]);
        var i :| 0 <= i < |cs[1..]| && cs[1..][i].path != [] && cs[1..][i].path[0] == Key(name);
        assert cs[i + 1] == cs[1..][i];
      }
    }
  }

  /** A field that is not in the old object and without changes is not in the new one. */
  lemma NoneOnlyIfAbsent(env: Env, at: seq<Step>, a: Json, b: Json, name: string)
    requires a.Obj? && b.Obj?
    ensures name !in a.fields && name in b.fields ==> FieldChanges(env, at, a, b, name) != []
    ensures Patch(env.keys, None, []) == None
  {
    hide OneSided;
    if name !in a.fields && name in b.fields { OneSidedReports(env, at + [Field(name)], None, Some(b.fields[name])); }
  }

  /** Patching an identified element keeps its identity. */
  lemma PatchKeepsIdentity(env: Env, at: seq<Step>, key: string, a: Json, b: Json)
    requires Identity(key, a).Some? && Identity(key, a) == Identity(key, b)
    ensures var p := Patch(env.keys, Some(a), Both(env, at, a, b));
      p.Some? && Identity(key, p.value) == Identity(key, a)
  {
    hide Patch, Both, Usable;
    if Both(env, at, a, b) == [] {
      PatchNothing(env.keys, Some(a));
    } else {
      PatchedField(env, at, a, b, key);
      PatchScalar(env, at + [Field(key)], a.fields[key], b.fields[key]);
    }
  }

  lemma PatchNothing(keys: seq<string>, v: Option<Json>)
    ensures Patch(keys, v, []) == v
  {
  }

  lemma PatchAtRoot(keys: seq<string>, v: Option<Json>, before: Option<Json>, after: Option<Json>)
    ensures Patch(keys, v, [Change([], before, after)]) == after
  {
  }

  // ---------------------------------------------------------------- patched lists

  /** The patched value of one identity. */
  function PatchedId(env: Env, at: seq<Step>, key: string, x: seq<Json>, y: seq<Json>, id: string): Option<Json> {
    Patch(env.keys, Lookup(key, x, id), IdChanges(env, at, key, x, y, id))
  }

  lemma PatchedIdKeeps(env: Env, at: seq<Step>, key: string, x: seq<Json>, y: seq<Json>, id: string)
    requires HasId(key, x, id) || HasId(key, y, id)
    ensures var p := PatchedId(env, at, key, x, y, id);
      && (p.Some? <==> HasId(key, y, id)) && (p.Some? ==> Identity(key, p.value) == Some(id))
      && (!HasId(key, x, id) ==> p == Lookup(key, y, id))
  {
    hide Patch, Both, HasId, Identity, OneSided, Lookup;
    var a, b := Lookup(key, x, id), Lookup(key, y, id);
    if a.Some? && b.Some? {
      PatchKeepsIdentity(env, at + [Element], key, a.value, b.value);
    } else {
      OneIdChange(env, at, key, x, y, id);
      PatchAtRoot(env.keys, a, a, b);
    }
  }

  /** A list that holds exactly the patched values of the identities in a set. */
  ghost predicate Holds(env: Env, at: seq<Step>, key: string, x: seq<Json>, y: seq<Json>, r: seq<Json>,
          ids: set<string>) {
    && Identified(key, r)
    && (forall i | 0 <= i < |r| ::
        Identity(key, r[i]).value in ids && PatchedId(env, at, key, x, y, Identity(key, r[i]).value) == Some(r[i]))
    && (forall id | id in ids && PatchedId(env, at, key, x, y, id).Some? :: HasId(key, r, id))
  }

  lemma HoldsOne(env: Env, at: seq<Step>, key: string, x: seq<Json>, y: seq<Json>, r: seq<Json>, ids: set<string>,
          id: string)
    requires Holds(env, at, key, x, y, r, ids) && id !in ids
    requires HasId(key, x, id) || HasId(key, y, id)
    ensures Holds(env, at, key, x, y, r + Opt(PatchedId(env, at, key, x, y, id)), ids + {id})
  {
    hide PatchedId, Identity;
    PatchedIdKeeps(env, at, key, x, y, id);
    var p := PatchedId(env, at, key, x, y, id);
    var next := r + Opt(p);
    forall other | other in ids + {id} && PatchedId(env, at, key, x, y, other).Some? ensures HasId(key, next, other) {
      if other == id {
        assert next[|r|] == p.value;
      } else {
        var i :| 0 <= i < |r| && Identity(key, r[i]) == Some(other);
        assert next[i] == r[i];
      }
    }
  }

  /** The changes of a keyed comparison, grouped by identity. */
  ghost predicate Grouped(env: Env, at: seq<Step>, key: string, x: seq<Json>, y: seq<Json>, cs: seq<Change>) {
    && cs != [] && UnderElements(cs)
    && (forall id ::
        Sub(cs, Elem(id)) == if HasId(key, x, id) || HasId(key, y, id) then IdChanges(env, at, key, x, y, id) else [])
  }

  lemma {:induction false} KeptHolds(env: Env, at: seq<Step>, key: string, x: seq<Json>, y: seq<Json>,
          cs: seq<Change>, n: nat)
    requires Identified(key, x) && Grouped(env, at, key, x, y, cs) && n <= |x|
    ensures Holds(env, at, key, x, y, Kept(env.keys, key, x[..n], cs), IdSet(key, x[..n]))
    decreases n
  {
    hide Holds, Identity, PatchedId, Patch, Kept, IdChanges, Sub, HasId;
    if n == 0 {
      KeptNone(env, at, key, x, y, cs);
      assert x[..0] == [];
    } else {
      KeptHolds(env, at, key, x, y, cs, n - 1);
      var id := Identity(key, x[n - 1]).value;
      IdentifiedPrefix(key, x, n);
      KeptSnoc(env.keys, key, x, cs, n);
      LookupAt(key, x, n - 1);
      GroupedId(env, at, key, x, y, cs, id);
      HoldsOne(env, at, key, x, y, Kept(env.keys, key, x[..n - 1], cs), IdSet(key, x[..n - 1]), id);
    }
  }

  lemma KeptNone(env: Env, at: seq<Step>, key: string, x: seq<Json>, y: seq<Json>, cs: seq<Change>)
    requires cs != [] && cs[0].path != []
    ensures Kept(env.keys, key, [], cs) == [] && IdSet(key, []) == {} && Holds(env, at, key, x, y, [], {})
  {
  }

  lemma KeptSnoc(keys: seq<string>, key: string, x: seq<Json>, cs: seq<Change>, n: nat)
    requires 0 < n <= |x| && Identity(key, x[n - 1]).Some? && cs != [] && cs[0].path != []
    ensures Kept(keys, key, x[..n], cs) == Kept(keys, key, x[..n - 1], cs)
        + Opt(Patch(keys, Some(x[n - 1]), Sub(cs, Elem(Identity(key, x[n - 1]).value))))
  {
    hide Identity, Sub, Patch;
    assert x[..n][..n - 1] == x[..n - 1];
  }

  lemma IdentifiedPrefix(key: string, x: seq<Json>, n: nat)
    requires Identified(key, x) && 0 < n <= |x|
    ensures Identity(key, x[n - 1]).Some?
    ensures IdSet(key, x[..n]) == IdSet(key, x[..n - 1]) + {Identity(key, x[n - 1]).value}
    ensures Identity(key, x[n - 1]).value !in IdSet(key, x[..n - 1])
  {
    hide Identity;
    var last := Identity(key, x[n - 1]).value;
    forall id ensures id in IdSet(key, x[..n]) <==> id in IdSet(key, x[..n - 1]) + {last} {
      if id in IdSet(key, x[..n]) {
        var i :| 0 <= i < n && Identity(key, x[..n][i]) == Some(id);
        if i < n - 1 { assert x[..n - 1][i] == x[..n][i]; }
      }
      if id in IdSet(key, x[..n - 1]) {
        var i :| 0 <= i < n - 1 && Identity(key, x[..n - 1][i]) == Some(id);
        assert x[..n][i] == x[..n - 1][i];
      }
      if id == last { assert x[..n][n - 1] == x[n - 1]; }
    }
  }

  lemma GroupedId(env: Env, at: seq<Step>, key: string, x: seq<Json>, y: seq<Json>, cs: seq<Change>, id: string)
    requires Grouped(env, at, key, x, y, cs) && (HasId(key, x, id) || HasId(key, y, id))
    ensures Patch(env.keys, Lookup(key, x, id), Sub(cs, Elem(id))) == PatchedId(env, at, key, x, y, id)
  {
    hide Patch, Sub, IdChanges, Lookup;
  }

  function Members(ids: seq<string>): set<string> {
    set id | id in ids
  }

  lemma NoMembers()
    ensures Members([]) == {}
  {
  }

  lemma MembersSnoc(ids: seq<string>)
    requires ids != []
    ensures var n := |ids| - 1;
      Members(ids) == Members(ids[..n]) + {ids[n]}
  {
    assert ids == ids[..|ids| - 1] + [ids[|ids| - 1]];
  }

  lemma {:induction false} AddedHolds(env: Env, at: seq<Step>, key: string, x: seq<Json>, y: seq<Json>,
          cs: seq<Change>, ids: seq<string>)
    requires Identified(key, x) && Grouped(env, at, key, x, y, cs)
    requires forall i, j | 0 <= i < j < |ids| :: ids[i] != ids[j]
    requires forall id | id in ids :: HasId(key, x, id) || HasId(key, y, id)
    ensures Holds(env, at, key, x, y, Kept(env.keys, key, x, cs) + Added(env.keys, key, x, ids, cs),
        IdSet(key, x) + Members(ids))
    decreases |ids|
  {
    hide Holds, Identity, PatchedId, Patch, Kept, IdChanges, Sub, HasId, Added, Identified, IdSet, Members;
    if ids == [] {
      KeptHolds(env, at, key, x, y, cs, |x|);
      assert x[..|x|] == x;
      AddedNone(env.keys, key, x, cs);
      assert Kept(env.keys, key, x, cs) + [] == Kept(env.keys, key, x, cs);
      assert Members(ids) == {} by { NoMembers(); }
      assert IdSet(key, x) + {} == IdSet(key, x);
    } else {
      assert ids[|ids| - 1] in ids && forall id | id in ids[..|ids| - 1] :: id in ids;
      AddedHolds(env, at, key, x, y, cs, ids[..|ids| - 1]);
      AddedStep(env, at, key, x, y, cs, ids);
    }
  }

  lemma AddedStep(env: Env, at: seq<Step>, key: string, x: seq<Json>, y: seq<Json>, cs: seq<Change>, ids: seq<string>)
    requires Grouped(env, at, key, x, y, cs) && ids != []
    requires forall i, j | 0 <= i < j < |ids| :: ids[i] != ids[j]
    requires var n := |ids| - 1;
      && (HasId(key, x, ids[n]) || HasId(key, y, ids[n]))
      && Holds(env, at, key, x, y, Kept(env.keys, key, x, cs) + Added(env.keys, key, x, ids[..n], cs),
          IdSet(key, x) + Members(ids[..n]))
    ensures Holds(env, at, key, x, y, Kept(env.keys, key, x, cs) + Added(env.keys, key, x, ids, cs),
        IdSet(key, x) + Members(ids))
  {
    hide Holds, Identity, PatchedId, Patch, Kept, IdChanges, Sub, HasId, Added, IdSet, Grouped, Lookup;
    GroupedNonEmpty(env, at, key, x, y, cs);
    var n := |ids| - 1;
    var before, r := IdSet(key, x) + Members(ids[..n]),
        Kept(env.keys, key, x, cs) + Added(env.keys, key, x, ids[..n], cs);
    AddedSnoc(env.keys, key, x, cs, ids);
    GroupedId(env, at, key, x, y, cs, ids[n]);
    IdSetHas(key, x, ids[n]);
    MembersSnoc(ids);
    assert ids[n] !in ids[..n];
    if HasId(key, x, ids[n]) {
      assert IdSet(key, x) + Members(ids) == before;
      assert Kept(env.keys, key, x, cs) + Added(env.keys, key, x, ids, cs) == r;
    } else {
      HoldsOne(env, at, key, x, y, r, before, ids[n]);
      assert IdSet(key, x) + Members(ids) == before + {ids[n]};
      assert Kept(env.keys, key, x, cs) + Added(env.keys, key, x, ids, cs) == r
          + Opt(PatchedId(env, at, key, x, y, ids[n]));
    }
  }

  lemma GroupedNonEmpty(env: Env, at: seq<Step>, key: string, x: seq<Json>, y: seq<Json>, cs: seq<Change>)
    requires Grouped(env, at, key, x, y, cs)
    ensures cs != [] && cs[0].path != []
  {
  }

  lemma AddedNone(keys: seq<string>, key: string, x: seq<Json>, cs: seq<Change>)
    requires cs != [] && cs[0].path != []
    ensures Added(keys, key, x, [], cs) == []
  {
  }

  lemma AddedSnoc(keys: seq<string>, key: string, x: seq<Json>, cs: seq<Change>, ids: seq<string>)
    requires ids != [] && cs != [] && cs[0].path != []
    ensures var n := |ids| - 1;
      Added(keys, key, x, ids, cs) == Added(keys, key, x, ids[..n], cs)
          + (if HasId(key, x, ids[n]) then [] else Opt(Patch(keys, None, Sub(cs, Elem(ids[n])))))
  {
    hide HasId, Sub, Patch;
  }

  lemma PatchList(keys: seq<string>, v: Option<Json>, key: string, cs: seq<Change>)
    requires cs != [] && UnderElements(cs) && ChooseKey(keys, Items(v), cs) == Some(key)
    ensures Patch(keys, v, cs) == Some(List(Kept(keys, key, Items(v), cs)
        + Added(keys, key, Items(v), ElementIds(cs), cs)))
  {
    hide Kept, Added;
  }

  // ---------------------------------------------------------------- the key of a reported list

  lemma {:induction false} SubMember(cs: seq<Change>, seg: Seg, c: Change)
    ensures c in Sub(cs, seg) <==> Change([seg] + c.path, c.before, c.after) in cs
    decreases |cs|
  {
    if cs != [] {
      SubMember(cs[1..], seg, c);
      var first := cs[0];
      if first.path != [] && first.path[0] == seg {
        assert first.path == [seg] + first.path[1..];
        assert ([seg] + c.path)[1..] == c.path;
      }
      assert cs == [cs[0]] + cs[1..];
    }
  }

  /** A scalar field is compared as one value. */
  lemma ScalarField(env: Env, at: seq<Step>, a: Json, b: Json, name: string)
    requires a.Obj? && b.Obj? && name in a.fields && Scalar(a.fields[name])
    ensures FieldChanges(env, at, a, b, name) ==
      if Get(b.fields, name) == Some(a.fields[name]) then []
      else [Change([], Some(a.fields[name]), Get(b.fields, name))]
  {
    hide Blank, ArrayIdentity, Identified;
  }

  lemma ObjectFields(env: Env, at: seq<Step>, a: Json, b: Json, name: string)
    requires a.Obj? && b.Obj?
    ensures UnderFields(Both(env, at, a, b))
    ensures Sub(Both(env, at, a, b), Key(name)) == if name in a.fields || name in b.fields then
        FieldChanges(env, at, a, b, name) else []
  {
    hide FieldChanges, ObjectChanges, SortedKeys, Sub, UnderFields;
    SubObject(env, at, a, b, SortedKeys(a.fields.Keys + b.fields.Keys), name);
  }

  /** What a keyed comparison reports of one field of an element on both sides. */
  lemma ElementField(env: Env, at: seq<Step>, key: string, x: seq<Json>, y: seq<Json>, cs: seq<Change>, id: string,
          name: string, c: Change)
    requires Grouped(env, at, key, x, y, cs) && HasId(key, x, id) && HasId(key, y, id)
    ensures var p, q := Lookup(key, x, id).value, Lookup(key, y, id).value;
      && p.Obj? && q.Obj?
      && (Change([Elem(id), Key(name)] + c.path, c.before, c.after) in cs <==>
            (name in p.fields || name in q.fields) && c in FieldChanges(env, at + [Element], p, q, name))
  {
    hide FieldChanges, Sub, Both, HasId, Usable, Lookup;
    var p, q := Lookup(key, x, id).value, Lookup(key, y, id).value;
    var below := Change([Key(name)] + c.path, c.before, c.after);
    SubMember(cs, Elem(id), below);
    assert [Elem(id)] + below.path == [Elem(id), Key(name)] + c.path;
    ObjectFields(env, at + [Element], p, q, name);
    SubMember(Both(env, at + [Element], p, q), Key(name), c);
  }

  lemma TextOfIdentity(key: string, v: Json, id: string)
    ensures Identity(key, v) == Some(id) <==> v.Obj? && TextIs(Get(v.fields, key), id) && Usable(id)
  {
    hide Usable;
  }

  lemma SplitTwo(path: seq<Seg>)
    requires |path| >= 2
    ensures path == [path[0], path[1]] + path[2..] == [path[0]] + path[1..]
  {
  }

  /** The key of a comparison fits its changes. */
  lemma OwnKeyFits(env: Env, at: seq<Step>, key: string, x: seq<Json>, y: seq<Json>, cs: seq<Change>, c: Change)
    requires Grouped(env, at, key, x, y, cs) && c in cs
    ensures c.path != [] && c.path[0].Elem? && ChangeFits(key, x, c)
  {
    hide FieldChanges, Sub, Both, Usable, Lookup, IdChanges, HasId, Identity;
    var id := c.path[0].id;
    var below := Change(c.path[1..], c.before, c.after);
    assert c.path == [Elem(id)] + below.path;
    SubMember(cs, Elem(id), below);
    assert below in IdChanges(env, at, key, x, y, id);
    if HasId(key, x, id) != HasId(key, y, id) {
      OneIdChange(env, at, key, x, y, id);
    } else {
      BothSides(env, at, key, x, y, id, below);
      if c.path[1] == Key(key) {
        SplitTwo(c.path);
        OwnField(env, at, key, x, y, cs, id, Change(c.path[2..], c.before, c.after));
      }
    }
  }

  lemma BothSides(env: Env, at: seq<Step>, key: string, x: seq<Json>, y: seq<Json>, id: string, c: Change)
    requires HasId(key, x, id) && HasId(key, y, id) && c in IdChanges(env, at, key, x, y, id)
    ensures c.path != []
  {
    hide Both, Usable, Lookup, HasId, UnderFields;
    var p, q := Lookup(key, x, id).value, Lookup(key, y, id).value;
    ObjectFields(env, at + [Element], p, q, key);
    FieldsBelow(Both(env, at + [Element], p, q), c);
  }

  lemma FieldsBelow(cs: seq<Change>, c: Change)
    requires UnderFields(cs) && c in cs
    ensures c.path != []
  {
  }

  lemma OwnField(env: Env, at: seq<Step>, key: string, x: seq<Json>, y: seq<Json>, cs: seq<Change>, id: string,
          c: Change)
    requires Grouped(env, at, key, x, y, cs) && HasId(key, x, id) && HasId(key, y, id)
    requires Change([Elem(id), Key(key)] + c.path, c.before, c.after) in cs
    ensures c.path == [] && TextIs(c.before, id) && TextIs(c.after, id)
  {
    hide FieldChanges, Lookup, HasId, Identity, Grouped, Usable;
    var p, q := Lookup(key, x, id).value, Lookup(key, y, id).value;
    TextOfIdentity(key, p, id);
    TextOfIdentity(key, q, id);
    ElementField(env, at, key, x, y, cs, id, key, c);
    ScalarField(env, at + [Element], p, q, key);
  }

  /** Under another key that fits, an element on both sides keeps its identity. */
  lemma OtherKeyKept(env: Env, at: seq<Step>, key: string, x: seq<Json>, y: seq<Json>, cs: seq<Change>, other: string,
          id: string)
    requires Grouped(env, at, key, x, y, cs) && KeyFits(other, x, cs)
    requires HasId(key, x, id) && HasId(key, y, id) && Identity(other, Lookup(key, x, id).value).Some?
    ensures Identity(other, Lookup(key, y, id).value) == Identity(other, Lookup(key, x, id).value)
  {
    hide FieldChanges, Lookup, HasId, Identity, Grouped, Usable, Identified;
    var p, q := Lookup(key, x, id).value, Lookup(key, y, id).value;
    var text := Identity(other, p).value;
    TextOfIdentity(other, p, text);
    TextOfIdentity(other, q, text);
    var c := Change([], Some(p.fields[other]), if q.Obj? then Get(q.fields, other) else None);
    ElementField(env, at, key, x, y, cs, id, other, c);
    ScalarField(env, at + [Element], p, q, other);
    if Get(q.fields, other) != Some(p.fields[other]) {
      assert [Elem(id), Key(other)] + [] == [Elem(id), Key(other)];
      assert ChangeFits(other, x, Change([Elem(id), Key(other)], c.before, c.after));
    }
  }

  lemma OtherKeyAdded(env: Env, at: seq<Step>, key: string, x: seq<Json>, y: seq<Json>, cs: seq<Change>,
          other: string, id: string)
    requires Grouped(env, at, key, x, y, cs) && KeyFits(other, x, cs)
    requires !HasId(key, x, id) && HasId(key, y, id)
    ensures Identity(other, Lookup(key, y, id).value) == Some(id) && !HasId(other, x, id)
  {
    hide Lookup, HasId, Identity, Identified, Sub, IdChanges;
    var c := Change([], None, Lookup(key, y, id));
    OneIdChange(env, at, key, x, y, id);
    SubMember(cs, Elem(id), c);
    assert [Elem(id)] + [] == [Elem(id)];
    assert ChangeFits(other, x, Change([Elem(id)], c.before, c.after));
  }

  /** The identity of a new element under another key that fits, and where it comes from. */
  lemma OtherIdentity(env: Env, at: seq<Step>, key: string, x: seq<Json>, y: seq<Json>, cs: seq<Change>,
          other: string, j: nat)
    requires Grouped(env, at, key, x, y, cs) && KeyFits(other, x, cs) && Identified(key, x) && Identified(key, y)
        && j < |y|
    ensures Identity(key, y[j]).Some? && Identity(other, y[j]).Some?
    ensures var id := Identity(key, y[j]).value;
      if HasId(key, x, id) then Identity(other, y[j]) == Identity(other, x[Position(key, x, id)])
          && Position(key, x, id) < |x|
      else Identity(other, y[j]) == Some(id) && !HasId(other, x, id)
  {
    hide HasId, Identity, Grouped, ChangeFits;
    var id := Identity(key, y[j]).value;
    LookupAt(key, y, j);
    if HasId(key, x, id) {
      OtherKeyKept(env, at, key, x, y, cs, other, id);
    } else {
      OtherKeyAdded(env, at, key, x, y, cs, other, id);
    }
  }

  /** A key that fits the old list and the changes identifies the new list too. */
  lemma FittingIdentifies(env: Env, at: seq<Step>, key: string, x: seq<Json>, y: seq<Json>, cs: seq<Change>,
          other: string)
    requires Grouped(env, at, key, x, y, cs) && KeyFits(other, x, cs) && Identified(key, x) && Identified(key, y)
    ensures Identified(other, y)
  {
    hide Identity, Grouped, ChangeFits, Position;
    forall j | 0 <= j < |y| ensures Identity(other, y[j]).Some? { OtherIdentity(env, at, key, x, y, cs, other, j); }
    forall j, k | 0 <= j < k < |y| ensures Identity(other, y[j]) != Identity(other, y[k]) {
      OtherIdentity(env, at, key, x, y, cs, other, j);
      OtherIdentity(env, at, key, x, y, cs, other, k);
      assert Identity(key, y[j]) != Identity(key, y[k]);
    }
  }

  /** The chosen key is the one the comparison used, although no path names it. */
  lemma {:induction false} ChosenKey(env: Env, at: seq<Step>, keys: seq<string>, key: string, x: seq<Json>,
          y: seq<Json>, cs: seq<Change>)
    requires Grouped(env, at, key, x, y, cs) && ArrayIdentity(keys, x, y) == Some(key)
    ensures ChooseKey(keys, x, cs) == Some(key)
    decreases |keys|
  {
    hide Grouped, ChangeFits, Identified;
    if keys[0] == key {
      forall c | c in cs && c.path != [] && c.path[0].Elem?
        ensures ChangeFits(key, x, c)
      {
        OwnKeyFits(env, at, key, x, y, cs, c);
      }
    } else {
      if KeyFits(keys[0], x, cs) { FittingIdentifies(env, at, key, x, y, cs, keys[0]); }
      ChosenKey(env, at, keys[1..], key, x, y, cs);
    }
  }

  lemma KeyingIdentity(env: Env, at: seq<Step>, a: Option<Json>, b: Option<Json>, key: string)
    requires Keying(env, at, a, b) == Some(key)
    ensures ArrayIdentity(env.keys, Items(a), Items(b)) == Some(key)
  {
    hide ArrayIdentity, Blank, Identified;
  }

  lemma {:induction false} IdListed(cs: seq<Change>, id: string)
    requires UnderElements(cs)
    ensures id in ElementIds(cs) <==> Sub(cs, Elem(id)) != []
    decreases |cs|
  {
    hide ElementIds;
    if cs != [] {
      IdListed(cs[1..], id);
      assert forall i | 0 < i < |cs| :: cs[i] == cs[1..][i - 1];
      if id in ElementIds(cs[1..]) {
        var i :| 0 <= i < |cs[1..]| && cs[1..][i].path[0].id == id;
        assert cs[i + 1] == cs[1..][i];
      }
    }
  }

  /** The patched list holds exactly the patched values of both sides' identities. */
  lemma PatchedList(env: Env, at: seq<Step>, v: Option<Json>, key: string, x: seq<Json>, y: seq<Json>, cs: seq<Change>)
    requires x == Items(v) && ArrayIdentity(env.keys, x, y) == Some(key) && Grouped(env, at, key, x, y, cs)
    ensures var p := Patch(env.keys, v, cs);
      && p.Some? && p.value.List? && Holds(env, at, key, x, y, p.value.items, IdSet(key, x) + IdSet(key, y))
  {
    hide Holds, PatchedId, Patch, Kept, IdChanges, Sub, HasId, Added, Identified, ElementIds, Identity, ArrayIdentity,
        ChooseKey;
    var ids := ElementIds(cs);
    ChosenKey(env, at, env.keys, key, x, y, cs);
    PatchList(env.keys, v, key, cs);
    forall id | id in ids ensures HasId(key, x, id) || HasId(key, y, id) { IdListed(cs, id); }
    AddedHolds(env, at, key, x, y, cs, ids);
    var r := Kept(env.keys, key, x, cs) + Added(env.keys, key, x, ids, cs);
    HoldsMore(env, at, key, x, y, r, cs);
  }

  lemma HoldsMore(env: Env, at: seq<Step>, key: string, x: seq<Json>, y: seq<Json>, r: seq<Json>, cs: seq<Change>)
    requires Grouped(env, at, key, x, y, cs)
    requires Holds(env, at, key, x, y, r, IdSet(key, x) + Members(ElementIds(cs)))
    ensures Holds(env, at, key, x, y, r, IdSet(key, x) + IdSet(key, y))
  {
    hide PatchedId, IdChanges, Sub, HasId, ElementIds, Identity;
    forall i | 0 <= i < |r| ensures Identity(key, r[i]).value in IdSet(key, x) + IdSet(key, y) {
      var id := Identity(key, r[i]).value;
      if id in ElementIds(cs) { IdListed(cs, id); IdSetHas(key, x, id); IdSetHas(key, y, id); }
    }
    forall id | id in IdSet(key, x) + IdSet(key, y) && PatchedId(env, at, key, x, y, id).Some?
      ensures HasId(key, r, id)
    {
      IdListed(cs, id);
      IdSetHas(key, x, id);
      IdSetHas(key, y, id);
      if id !in IdSet(key, x) { NewIdReports(env, at, key, x, y, id); }
    }
  }

  lemma NewIdReports(env: Env, at: seq<Step>, key: string, x: seq<Json>, y: seq<Json>, id: string)
    requires HasId(key, y, id) && !HasId(key, x, id)
    ensures IdChanges(env, at, key, x, y, id) != []
  {
    hide HasId, Identity;
    OneIdChange(env, at, key, x, y, id);
  }

  // ---------------------------------------------------------------- equivalence of the result

  /** A list of patched values is equivalent to the new list exactly when each patched
      value is equivalent to the new element. */
  lemma HoldsEquiv(env: Env, at: seq<Step>, key: string, x: seq<Json>, y: seq<Json>, r: seq<Json>)
    requires key in env.keys && !env.ordered(at) && Identified(key, y)
    requires Holds(env, at, key, x, y, r, IdSet(key, x) + IdSet(key, y))
    ensures Equiv(env, at, List(r), List(y)) <==>
      forall id | id in IdSet(key, y) ::
          EquivOption(env, at + [Element], PatchedId(env, at, key, x, y, id), Lookup(key, y, id))
  {
    hide PatchedId, Identity, Equiv, HasId, Lookup;
    HoldsMatches(env, at, key, x, y, r);
    if Equiv(env, at, List(r), List(y)) {
      forall id | id in IdSet(key, y)
        ensures EquivOption(env, at + [Element], PatchedId(env, at, key, x, y, id), Lookup(key, y, id))
      {
        EquivAtId(env, at, key, x, y, r, id);
      }
    }
    if forall id | id in IdSet(key, y) ::
        EquivOption(env, at + [Element], PatchedId(env, at, key, x, y, id), Lookup(key, y, id)) {
      forall i, j | 0 <= i < |r| && 0 <= j < |y| && Identity(key, r[i]) == Identity(key, y[j])
        ensures Equiv(env, at + [Element], r[i], y[j])
      {
        LookupAt(key, y, j);
        KeyedHasIds(key, y);
      }
      EquivByKey(env, at, key, r, y);
    }
  }

  lemma EquivByKey(env: Env, at: seq<Step>, key: string, r: seq<Json>, y: seq<Json>)
    requires key in env.keys && !env.ordered(at) && Matched(key, r, y)
    requires forall i, j | 0 <= i < |r| && 0 <= j < |y| && Identity(key, r[i]) == Identity(key, y[j]) ::
        Equiv(env, at + [Element], r[i], y[j])
    ensures Equiv(env, at, List(r), List(y))
  {
    hide Identity, Matched;
  }

  lemma HoldsMatches(env: Env, at: seq<Step>, key: string, x: seq<Json>, y: seq<Json>, r: seq<Json>)
    requires Identified(key, y) && Holds(env, at, key, x, y, r, IdSet(key, x) + IdSet(key, y))
    ensures Matched(key, r, y)
    ensures forall id | id in IdSet(key, y) :: HasId(key, r, id) && PatchedId(env, at, key, x, y, id).Some?
  {
    hide PatchedId, Identity;
    forall id ensures id in IdSet(key, r) <==> id in IdSet(key, y) {
      IdSetHas(key, x, id); IdSetHas(key, y, id); IdSetHas(key, r, id);
      if id in IdSet(key, r) || id in IdSet(key, y) {
        PatchedIdKeepsMember(env, at, key, x, y, r, id);
      }
    }
    forall id | id in IdSet(key, y) ensures HasId(key, r, id) && PatchedId(env, at, key, x, y, id).Some? {
      IdSetHas(key, y, id);
      PatchedIdKeeps(env, at, key, x, y, id);
    }
  }

  lemma PatchedIdKeepsMember(env: Env, at: seq<Step>, key: string, x: seq<Json>, y: seq<Json>, r: seq<Json>, id: string)
    requires Holds(env, at, key, x, y, r, IdSet(key, x) + IdSet(key, y)) && (HasId(key, r, id) || HasId(key, y, id))
    ensures HasId(key, r, id) <==> HasId(key, y, id)
  {
    hide PatchedId, Identity;
    IdSetHas(key, x, id); IdSetHas(key, y, id);
    if HasId(key, r, id) {
      var i :| 0 <= i < |r| && Identity(key, r[i]) == Some(id);
      assert PatchedId(env, at, key, x, y, id) == Some(r[i]);
    }
    PatchedIdKeeps(env, at, key, x, y, id);
  }

  lemma EquivAtId(env: Env, at: seq<Step>, key: string, x: seq<Json>, y: seq<Json>, r: seq<Json>, id: string)
    requires Identified(key, y) && Holds(env, at, key, x, y, r, IdSet(key, x) + IdSet(key, y)) && Matched(key, r, y)
    requires Equiv(env, at, List(r), List(y)) && id in IdSet(key, y) && HasId(key, r, id)
    ensures EquivOption(env, at + [Element], PatchedId(env, at, key, x, y, id), Lookup(key, y, id))
  {
    hide PatchedId, Identity;
    var i :| 0 <= i < |r| && Identity(key, r[i]) == Some(id);
    IdSetHas(key, y, id);
    var j :| 0 <= j < |y| && Identity(key, y[j]) == Some(id);
    LookupAt(key, y, j);
    assert PatchedId(env, at, key, x, y, id) == Some(r[i]);
    if r == y {
      LookupAt(key, y, i);
      EquivReflexive(env, at + [Element], r[i]);
    } else {
      var other := MatchingKey(env, at, List(r), List(y));
      OtherKeyMatches(env, at + [Element], r, y, key, other);
    }
  }

  // ---------------------------------------------------------------- the theorem

  /** An appearance or disappearance. */
  lemma PatchSided(env: Env, at: seq<Step>, a: Option<Json>, b: Option<Json>)
    requires a.None? != b.None?
    ensures EquivOption(env, at, Patch(env.keys, a, OneSided(env, at, a, b)), b) <==> !Lost(env, at, a, b)
  {
    hide Patch, Equiv, Identity, SortedKeys, Identified, Blank, SidedElements, IdSet;
    var key := Keying(env, at, a, b);
    if key.None? {
      PatchAtRoot(env.keys, a, a, b);
      if b.Some? { EquivReflexive(env, at, b.value); }
    } else {
      OneSidedReports(env, at, a, b);
      SidedGrouped(env, at, a, b, key.value);
      KeyingIdentity(env, at, a, b, key.value);
      PatchNil(env, at, a, b, key.value, OneSided(env, at, a, b));
    }
  }

  lemma SidedGrouped(env: Env, at: seq<Step>, a: Option<Json>, b: Option<Json>, key: string)
    requires (Items(a) == []) != (Items(b) == []) && OneSided(env, at, a, b) != []
    requires Keying(env, at, a, b) == Some(key)
    ensures Grouped(env, at, key, Items(a), Items(b), OneSided(env, at, a, b))
  {
    hide Identity, SortedKeys, Identified, Blank, SidedElements, IdChanges, Sub, Keying;
    var x, y := Items(a), Items(b);
    var ids := AllIds(key, x, y);
    forall id
      ensures id in ids <==> HasId(key, x, id) || HasId(key, y, id)
    {
      IdSetHas(key, x, id);
      IdSetHas(key, y, id);
    }
    forall id | id in ids ensures HasId(key, x, id) != HasId(key, y, id) {}
    forall id
      ensures Sub(OneSided(env, at, a, b), Elem(id)) == if id in ids then IdChanges(env, at, key, x, y, id) else []
    {
      SubSided(env, at, key, x, y, ids, id);
    }
    SubSided(env, at, key, x, y, ids, "");
  }

  /** A list against nothing: its elements, or nothing, are what the patch leaves. */
  lemma PatchNil(env: Env, at: seq<Step>, a: Option<Json>, b: Option<Json>, key: string, cs: seq<Change>)
    requires ArrayIdentity(env.keys, Items(a), Items(b)) == Some(key) && !env.ordered(at)
    requires (NilLike(a) && b.Some? && b.value.List? && Items(b) != [])
        || (NilLike(b) && a.Some? && a.value.List? && Items(a) != [])
    requires Grouped(env, at, key, Items(a), Items(b), cs)
    ensures EquivOption(env, at, Patch(env.keys, a, cs), b) <==> !NilLike(b)
  {
    hide Patch, Equiv, Identity, Identified, Grouped, Holds, PatchedId, IdSet, HasId;
    var x, y := Items(a), Items(b);
    PatchedList(env, at, a, key, x, y, cs);
    var r := Patch(env.keys, a, cs).value.items;
    if NilLike(b) {
      NilNotEquivOption(env, at, r, b);
    } else {
      HoldsEquiv(env, at, key, x, y, r);
      forall id | id in IdSet(key, y)
        ensures EquivOption(env, at + [Element], PatchedId(env, at, key, x, y, id), Lookup(key, y, id))
      {
        IdSetHas(key, y, id);
        NoIdInEmpty(key, id);
        PatchedIdKeeps(env, at, key, x, y, id);
        EquivReflexive(env, at + [Element], Lookup(key, y, id).value);
      }
    }
  }

  lemma NoIdInEmpty(key: string, id: string)
    ensures !HasId(key, [], id)
  {
  }

  lemma NilNotEquivOption(env: Env, at: seq<Step>, r: seq<Json>, b: Option<Json>)
    requires NilLike(b)
    ensures !EquivOption(env, at, Some(List(r)), b)
  {
  }

  /** Nothing vanishes where nothing is reported. */
  lemma {:induction false} VanishingReports(env: Env, at: seq<Step>, a: Json, b: Json)
    requires Vanishes(env, at, a, b)
    ensures Both(env, at, a, b) != []
    decreases a
  {
    hide Both, SortedKeys, Identity, Identified, Blank, Position, Lookup, ArrayIdentity, FieldChanges, IdChanges,
        ObjectChanges, ElementChanges;
    NoChangeIffEquivalent(env, at, a, b);
    if a.Obj? && b.Obj? {
      var k :| k in a.fields && if k in b.fields then Vanishes(env, at + [Field(k)], a.fields[k], b.fields[k])
          else Lost(env, at + [Field(k)], Some(a.fields[k]), None);
      if k in b.fields {
        VanishingReports(env, at + [Field(k)], a.fields[k], b.fields[k]);
        NoChangeIffEquivalent(env, at + [Field(k)], a.fields[k], b.fields[k]);
        ObjectNeedsFields(env, at, a, b, k);
      }
    } else if a.List? && b.List? {
      var key := Keying(env, at, Some(a), Some(b)).value;
      var i, j :| 0 <= i < |a.items| && 0 <= j < |b.items| && Identity(key, a.items[i]) == Identity(key, b.items[j])
          && Vanishes(env, at + [Element], a.items[i], b.items[j]);
      VanishingReports(env, at + [Element], a.items[i], b.items[j]);
      NoChangeIffEquivalent(env, at + [Element], a.items[i], b.items[j]);
      if Equiv(env, at, a, b) { EquivListElements(env, at, a, b, key, i, j); }
    } else {
      NilNotEquiv(env, at, a, b);
    }
  }

  lemma ObjectNeedsFields(env: Env, at: seq<Step>, a: Json, b: Json, k: string)
    requires a.Obj? && b.Obj? && k in a.fields && k in b.fields
        && !Equiv(env, at + [Field(k)], a.fields[k], b.fields[k])
    ensures !Equiv(env, at, a, b)
  {
    EquivReflexive(env, at + [Field(k)], a.fields[k]);
  }

  lemma EquivListElements(env: Env, at: seq<Step>, a: Json, b: Json, key: string, i: nat, j: nat)
    requires a.List? && b.List? && Identified(key, a.items) && Identified(key, b.items) && i < |a.items|
        && j < |b.items|
    requires Identity(key, a.items[i]) == Identity(key, b.items[j]) && Equiv(env, at, a, b)
    ensures Equiv(env, at + [Element], a.items[i], b.items[j])
  {
    hide Identity;
    if a == b {
      assert Identity(key, a.items[i]) == Identity(key, a.items[j]);
      EquivReflexive(env, at + [Element], a.items[i]);
    } else {
      var other := MatchingKey(env, at, a, b);
      OtherKeyMatches(env, at + [Element], a.items, b.items, key, other);
    }
  }

  /** Both values present. */
  lemma {:induction false} PatchBoth(env: Env, at: seq<Step>, a: Json, b: Json)
    ensures EquivOption(env, at, Patch(env.keys, Some(a), Both(env, at, a, b)), Some(b)) <==> !Vanishes(env, at, a, b)
    decreases a
  {
    hide Patch, Both, Equiv, Vanishes, Keying;
    if Both(env, at, a, b) == [] {
      PatchNothing(env.keys, Some(a));
      NoChangeIffEquivalent(env, at, a, b);
      if Vanishes(env, at, a, b) { VanishingReports(env, at, a, b); }
    } else if a.Obj? && b.Obj? {
      PatchObjects(env, at, a, b);
    } else if Keying(env, at, Some(a), Some(b)).Some? {
      PatchKeyed(env, at, a, b, Keying(env, at, Some(a), Some(b)).value);
    } else {
      PatchLeaf(env, at, a, b);
    }
  }

  lemma PatchLeaf(env: Env, at: seq<Step>, a: Json, b: Json)
    requires Both(env, at, a, b) != [] && !(a.Obj? && b.Obj?) && Keying(env, at, Some(a), Some(b)).None?
    ensures EquivOption(env, at, Patch(env.keys, Some(a), Both(env, at, a, b)), Some(b)) && !Vanishes(env, at, a, b)
  {
    hide Patch, Equiv, Keying;
    PatchAtRoot(env.keys, Some(a), Some(a), Some(b));
    EquivReflexive(env, at, b);
  }

  /** One field of the patched object. */
  lemma PatchField(env: Env, at: seq<Step>, a: Json, b: Json, k: string)
    requires a.Obj? && b.Obj? && (k in a.fields || k in b.fields)
    ensures EquivOption(env, at + [Field(k)], Patch(env.keys, Get(a.fields, k), FieldChanges(env, at, a, b, k)),
        Get(b.fields, k))
      <==> !VanishesOption(env, at + [Field(k)], Get(a.fields, k), Get(b.fields, k))
    decreases a, 0
  {
    hide Patch, Both, OneSided, Equiv, Vanishes, Lost;
    if k in a.fields && k in b.fields {
      PatchBoth(env, at + [Field(k)], a.fields[k], b.fields[k]);
    } else {
      PatchSided(env, at + [Field(k)], Get(a.fields, k), Get(b.fields, k));
    }
  }

  lemma PatchObjects(env: Env, at: seq<Step>, a: Json, b: Json)
    requires a.Obj? && b.Obj? && Both(env, at, a, b) != []
    ensures EquivOption(env, at, Patch(env.keys, Some(a), Both(env, at, a, b)), Some(b)) <==> !Vanishes(env, at, a, b)
    decreases a, 1
  {
    hide Patch, Both, Equiv, Vanishes, Lost, FieldChanges;
    var p := Patch(env.keys, Some(a), Both(env, at, a, b));
    var names := a.fields.Keys + b.fields.Keys;
    forall k | k in names
      ensures p.Some? && p.value.Obj?
      ensures EquivOption(env, at + [Field(k)], Get(p.value.fields, k), Get(b.fields, k))
          <==> !VanishesOption(env, at + [Field(k)], Get(a.fields, k), Get(b.fields, k))
    {
      PatchedField(env, at, a, b, k);
      PatchField(env, at, a, b, k);
    }
    PatchedShape(env, at, a, b);
    ObjectEquivByField(env, at, p.value, b, names);
    ObjectVanishesByField(env, at, a, b, names);
  }

  lemma PatchedShape(env: Env, at: seq<Step>, a: Json, b: Json)
    requires a.Obj? && b.Obj? && Both(env, at, a, b) != []
    ensures var p := Patch(env.keys, Some(a), Both(env, at, a, b));
      p.Some? && p.value.Obj? && p.value.fields.Keys <= a.fields.Keys + b.fields.Keys
  {
    hide Patch, SortedKeys, ObjectChanges, Sub;
    var names := SortedKeys(a.fields.Keys + b.fields.Keys);
    var cs := ObjectChanges(env, at, a, b, names);
    SubObject(env, at, a, b, names, "");
    PatchObject(env.keys, a, cs, "");
    var p := Patch(env.keys, Some(a), cs);
    forall k | k in p.value.fields ensures k in a.fields.Keys + b.fields.Keys {
      PatchObject(env.keys, a, cs, k);
      SubObject(env, at, a, b, names, k);
      if k !in names { PatchNothing(env.keys, Get(a.fields, k)); }
    }
  }

  lemma ObjectEquivByField(env: Env, at: seq<Step>, p: Json, b: Json, names: set<string>)
    requires p.Obj? && b.Obj? && p.fields.Keys <= names && b.fields.Keys <= names
    ensures Equiv(env, at, p, b) <==> forall k | k in names ::
        EquivOption(env, at + [Field(k)], Get(p.fields, k), Get(b.fields, k))
  {
    if Equiv(env, at, p, b) {
      forall k | k in names ensures EquivOption(env, at + [Field(k)], Get(p.fields, k), Get(b.fields, k)) {
        if p == b && k in p.fields { EquivReflexive(env, at + [Field(k)], p.fields[k]); }
      }
    }
    if forall k | k in names :: EquivOption(env, at + [Field(k)], Get(p.fields, k), Get(b.fields, k)) {
      forall k ensures k in p.fields <==> k in b.fields {
        if k in names { assert EquivOption(env, at + [Field(k)], Get(p.fields, k), Get(b.fields, k)); }
      }
      assert p.fields.Keys == b.fields.Keys;
      forall k | k in p.fields && k in b.fields ensures Equiv(env, at + [Field(k)], p.fields[k], b.fields[k]) {
        assert EquivOption(env, at + [Field(k)], Get(p.fields, k), Get(b.fields, k));
      }
    }
  }

  lemma ObjectVanishesByField(env: Env, at: seq<Step>, a: Json, b: Json, names: set<string>)
    requires a.Obj? && b.Obj? && names == a.fields.Keys + b.fields.Keys
    ensures Vanishes(env, at, a, b)
        <==> exists k | k in names :: VanishesOption(env, at + [Field(k)], Get(a.fields, k), Get(b.fields, k))
  {
    hide Blank, ArrayIdentity, Identity;
    if Vanishes(env, at, a, b) {
      var k :| k in a.fields && if k in b.fields then Vanishes(env, at + [Field(k)], a.fields[k], b.fields[k])
          else Lost(env, at + [Field(k)], Some(a.fields[k]), None);
      assert k in names && VanishesOption(env, at + [Field(k)], Get(a.fields, k), Get(b.fields, k));
    }
    if k :| k in names && VanishesOption(env, at + [Field(k)], Get(a.fields, k), Get(b.fields, k)) {
      assert k in a.fields;
    }
  }

  /** A keyed comparison. */
  lemma PatchKeyed(env: Env, at: seq<Step>, a: Json, b: Json, key: string)
    requires !(a.Obj? && b.Obj?) && Keying(env, at, Some(a), Some(b)) == Some(key) && Both(env, at, a, b) != []
    ensures EquivOption(env, at, Patch(env.keys, Some(a), Both(env, at, a, b)), Some(b)) <==> !Vanishes(env, at, a, b)
    decreases a, 2
  {
    hide Patch, Equiv, Vanishes, Identity, Identified, Blank, SortedKeys, ElementChanges, ArrayIdentity, IdSet, Grouped;
    KeyedGrouped(env, at, a, b, key);
    if a.List? && b.List? {
      PatchLists(env, at, a, b, key);
    } else {
      KeyingIdentity(env, at, Some(a), Some(b), key);
      PatchNil(env, at, Some(a), Some(b), key, Both(env, at, a, b));
      NilVanishes(env, at, a, b, key);
    }
  }

  lemma NilVanishes(env: Env, at: seq<Step>, a: Json, b: Json, key: string)
    requires a.List? != b.List? && Keying(env, at, Some(a), Some(b)) == Some(key)
    ensures Vanishes(env, at, a, b) <==> b.Null?
  {
    hide Identity, Identified, Blank, ArrayIdentity;
  }

  lemma KeyedGrouped(env: Env, at: seq<Step>, a: Json, b: Json, key: string)
    requires !(a.Obj? && b.Obj?) && Keying(env, at, Some(a), Some(b)) == Some(key) && Both(env, at, a, b) != []
    ensures Grouped(env, at, key, Items(Some(a)), Items(Some(b)), Both(env, at, a, b))
  {
    hide Identity, SortedKeys, Identified, Blank, ElementChanges, IdChanges, Sub, Keying, IdSet;
    var x, y := Items(Some(a)), Items(Some(b));
    var ids := AllIds(key, x, y);
    forall id
      ensures id in ids <==> HasId(key, x, id) || HasId(key, y, id)
    {
      IdSetHas(key, x, id);
      IdSetHas(key, y, id);
    }
    forall id
      ensures Sub(Both(env, at, a, b), Elem(id)) == if id in ids then IdChanges(env, at, key, x, y, id) else []
    {
      SubElements(env, at, key, a, b, ids, id);
    }
    SubElements(env, at, key, a, b, ids, "");
  }

  /** One element of the patched list. */
  lemma PatchElement(env: Env, at: seq<Step>, a: Json, b: Json, key: string, id: string)
    requires a.List? && b.List? && HasId(key, b.items, id)
    ensures EquivOption(env, at + [Element], PatchedId(env, at, key, a.items, b.items, id), Lookup(key, b.items, id))
      <==> !(HasId(key, a.items, id) && Vanishes(env, at + [Element], Lookup(key, a.items, id).value,
          Lookup(key, b.items, id).value))
    decreases a, 0
  {
    hide Patch, Both, OneSided, Equiv, Vanishes, Identity;
    if HasId(key, a.items, id) {
      PatchBoth(env, at + [Element], a.items[Position(key, a.items, id)], Lookup(key, b.items, id).value);
    } else {
      PatchedIdKeeps(env, at, key, a.items, b.items, id);
      EquivReflexive(env, at + [Element], Lookup(key, b.items, id).value);
    }
  }

  lemma PatchLists(env: Env, at: seq<Step>, a: Json, b: Json, key: string)
    requires a.List? && b.List? && Keying(env, at, Some(a), Some(b)) == Some(key)
    requires Grouped(env, at, key, a.items, b.items, Both(env, at, a, b))
    ensures EquivOption(env, at, Patch(env.keys, Some(a), Both(env, at, a, b)), Some(b)) <==> !Vanishes(env, at, a, b)
    decreases a, 1
  {
    hide Patch, Equiv, Vanishes, Identity, Identified, Blank, SortedKeys, ElementChanges, ArrayIdentity, IdSet,
        Grouped, Both, Holds, PatchedId, HasId, Lookup;
    KeyingIdentity(env, at, Some(a), Some(b), key);
    PatchedList(env, at, Some(a), key, a.items, b.items, Both(env, at, a, b));
    var p := Patch(env.keys, Some(a), Both(env, at, a, b)).value;
    HoldsEquiv(env, at, key, a.items, b.items, p.items);
    forall id | id in IdSet(key, b.items)
      ensures HasId(key, b.items, id)
      ensures EquivOption(env, at + [Element], PatchedId(env, at, key, a.items, b.items, id), Lookup(key, b.items, id))
        <==> !(HasId(key, a.items, id) && Vanishes(env, at + [Element], Lookup(key, a.items, id).value,
            Lookup(key, b.items, id).value))
    {
      IdSetHas(key, b.items, id);
      PatchElement(env, at, a, b, key, id);
    }
    ListVanishesById(env, at, a, b, key);
    assert p == List(p.items) && b == List(b.items);
  }

  lemma ListVanishesById(env: Env, at: seq<Step>, a: Json, b: Json, key: string)
    requires a.List? && b.List? && Keying(env, at, Some(a), Some(b)) == Some(key)
    ensures Vanishes(env, at, a, b) <==> exists id | id in IdSet(key, b.items) && HasId(key, b.items, id) ::
      HasId(key, a.items, id) && Vanishes(env, at + [Element], Lookup(key, a.items, id).value,
          Lookup(key, b.items, id).value)
  {
    hide Identity, Blank, ArrayIdentity;
    if Vanishes(env, at, a, b) {
      var i, j :| 0 <= i < |a.items| && 0 <= j < |b.items| && Identity(key, a.items[i]) == Identity(key, b.items[j])
          && Vanishes(env, at + [Element], a.items[i], b.items[j]);
      LookupAt(key, a.items, i);
      LookupAt(key, b.items, j);
      IdSetHas(key, b.items, Identity(key, b.items[j]).value);
    }
    if id :|
        && id in IdSet(key, b.items) && HasId(key, b.items, id) && HasId(key, a.items, id)
        && Vanishes(env, at + [Element], Lookup(key, a.items, id).value, Lookup(key, b.items, id).value) {
      var i, j := Position(key, a.items, id), Position(key, b.items, id);
      assert Identity(key, a.items[i]) == Identity(key, b.items[j]);
    }
  }

  /** Applying the complete field changes to the old value gives the new one, up to the
      order of identified lists, if and only if no non-empty identified list became null
      or absent. */
  lemma PatchedIffNothingVanishes(env: Env, at: seq<Step>, a: Option<Json>, b: Option<Json>)
    ensures EquivOption(env, at, Patch(env.keys, a, Changes(env, at, a, b)), b) <==> !VanishesOption(env, at, a, b)
  {
    hide Patch, Both, OneSided, Equiv, Vanishes;
    if a.Some? && b.Some? {
      PatchBoth(env, at, a.value, b.value);
    } else if a.None? != b.None? {
      PatchSided(env, at, a, b);
    } else {
      PatchNothing(env.keys, a);
      NothingLost(env, at);
    }
  }

  lemma NothingLost(env: Env, at: seq<Step>)
    ensures !Lost(env, at, None, None)
  {
  }

  /** A list that becomes null, absent or empty is reported in the same words. */
  lemma VanishingLooksEmpty(env: Env, at: seq<Step>, a: Json, key: string)
    requires a.List? && a.items != [] && !env.ordered(at) && !Blank(at)
        && ArrayIdentity(env.keys, a.items, []) == Some(key)
    ensures Changes(env, at, Some(a), Some(Null)) == Changes(env, at, Some(a), Some(List([])))
    ensures Changes(env, at, Some(a), None) == Changes(env, at, Some(a), Some(List([])))
  {
    hide SortedKeys, Identity, IdSet, Blank, ArrayIdentity, Identified, ElementChanges, SidedElements, HasId;
    var ids := AllIds(key, a.items, []);
    forall id | id in ids ensures HasId(key, a.items, id) && !HasId(key, [], id) {
      IdSetHas(key, a.items, id); IdSetHas(key, [], id); NoIdInEmpty(key, id);
    }
    LostElements(env, at, key, a, Null, ids);
    LostElements(env, at, key, a, List([]), ids);
  }

  lemma {:induction false} LostElements(env: Env, at: seq<Step>, key: string, a: Json, b: Json, ids: seq<string>)
    requires a.List? && Items(Some(b)) == [] && forall id | id in ids :: HasId(key, a.items, id) && !HasId(key, [], id)
    ensures ElementChanges(env, at, key, a, b, ids) == SidedElements(key, a.items, [], ids)
    decreases |ids|
  {
    hide IdChanges, ElementChanges, HasId, Lookup;
    if ids == [] {
      NoIdsToCompare(env, at, key, a, b);
    } else {
      var n := |ids| - 1;
      assert ids[n] in ids && forall id | id in ids[..n] :: id in ids;
      ElementSnoc(env, at, key, a, b, ids);
      LostElements(env, at, key, a, b, ids[..n]);
      OneIdChange(env, at, key, a.items, [], ids[n]);
      PrefixedOne(Elem(ids[n]), Lookup(key, a.items, ids[n]), Lookup(key, [], ids[n]));
    }
  }
}
