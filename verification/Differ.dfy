/** The recursive comparison as the object that accumulates its result: at most
    MAX_FIELDS changes are kept, all of them are counted.
 */
module Differ {
  import opened Crypto
  import opened Json
  import opened Diff
  import opened DiffPatch

  const MAX_FIELDS := 24

  function Kept24(all: seq<Change>): seq<Change> {
    if |all| <= MAX_FIELDS then all else all[..MAX_FIELDS]
  }

  /** Changes below a path, with that path in front. */
  function Under(path: seq<Seg>, cs: seq<Change>): (r: seq<Change>)
    ensures |r| == |cs| && forall i | 0 <= i < |r| :: r[i] == Change(path + cs[i].path, cs[i].before, cs[i].after)
  {
    seq(|cs|, i requires 0 <= i < |cs| => Change(path + cs[i].path, cs[i].before, cs[i].after))
  }

  lemma UnderPrefixed(path: seq<Seg>, seg: Seg, cs: seq<Change>)
    ensures Under(path, Prefixed(seg, cs)) == Under(path + [seg], cs)
  {
    forall i | 0 <= i < |cs| ensures path + ([seg] + cs[i].path) == path + [seg] + cs[i].path {}
  }

  lemma UnderConcat(path: seq<Seg>, a: seq<Change>, b: seq<Change>)
    ensures Under(path, a + b) == Under(path, a) + Under(path, b)
  {
  }

  /** The changes of several identities, one after the other. */
  function KeyedChanges(env: Env, at: seq<Step>, key: string, x: seq<Json>, y: seq<Json>,
          ids: seq<string>): seq<Change> {
    if ids == [] then []
    else
      var n := |ids| - 1;
      KeyedChanges(env, at, key, x, y, ids[..n]) + Prefixed(Elem(ids[n]), IdChanges(env, at, key, x, y, ids[n]))
  }

  lemma {:induction false} ElementsAreKeyed(env: Env, at: seq<Step>, key: string, a: Json, b: Json, ids: seq<string>)
    requires forall id | id in ids :: HasId(key, Items(Some(a)), id) || HasId(key, Items(Some(b)), id)
    ensures ElementChanges(env, at, key, a, b, ids) == KeyedChanges(env, at, key, Items(Some(a)), Items(Some(b)), ids)
    decreases |ids|
  {
    hide IdChanges, ElementChanges, Items, HasId;
    if ids == [] {
      NoIdsToCompare(env, at, key, a, b);
    } else {
      var n := |ids| - 1;
      assert ids[n] in ids && forall id | id in ids[..n] :: id in ids;
      ElementSnoc(env, at, key, a, b, ids);
      ElementsAreKeyed(env, at, key, a, b, ids[..n]);
    }
  }

  lemma {:induction false} SidedAreKeyed(env: Env, at: seq<Step>, key: string, x: seq<Json>, y: seq<Json>,
          ids: seq<string>)
    requires forall id | id in ids :: HasId(key, x, id) != HasId(key, y, id)
    ensures SidedElements(key, x, y, ids) == KeyedChanges(env, at, key, x, y, ids)
    decreases |ids|
  {
    hide IdChanges, HasId, Lookup;
    if ids != [] {
      var n := |ids| - 1;
      assert ids[n] in ids && forall id | id in ids[..n] :: id in ids;
      SidedAreKeyed(env, at, key, x, y, ids[..n]);
      OneIdChange(env, at, key, x, y, ids[n]);
      PrefixedOne(Elem(ids[n]), Lookup(key, x, ids[n]), Lookup(key, y, ids[n]));
    }
  }

  /** A keyed comparison is the changes of all identities. */
  lemma KeyedComparison(env: Env, at: seq<Step>, a: Option<Json>, b: Option<Json>, key: string)
    requires (a.Some? || b.Some?) && Keying(env, at, a, b) == Some(key)
    ensures Changes(env, at, a, b) == KeyedChanges(env, at, key, Items(a), Items(b), AllIds(key, Items(a), Items(b)))
  {
    hide KeyedChanges, SidedElements, ElementChanges, Identified, Blank, ArrayIdentity, IdSet, SortedKeys, Identity,
        HasId;
    var x, y := Items(a), Items(b);
    var ids := AllIds(key, x, y);
    forall id
      ensures id in ids <==> HasId(key, x, id) || HasId(key, y, id)
    {
      IdSetHas(key, x, id);
      IdSetHas(key, y, id);
    }
    if a.Some? && b.Some? {
      ElementsAreKeyed(env, at, key, a.value, b.value, ids);
    } else {
      forall id | id in ids ensures HasId(key, x, id) != HasId(key, y, id) { NoIdInEmpty(key, id); }
      SidedAreKeyed(env, at, key, x, y, ids);
    }
  }

  lemma LeafComparison(env: Env, at: seq<Step>, a: Option<Json>, b: Option<Json>)
    requires Keying(env, at, a, b).None? && !(a.Some? && b.Some? && a.value.Obj? && b.value.Obj?)
    ensures Changes(env, at, a, b) == if a == b then [] else [Change([], a, b)]
  {
    hide Blank, ArrayIdentity, Identified;
  }

  function ValueOf(v: Option<Json>): Json {
    if v.Some? then v.value else Null
  }

  class Comparison {
    const env: Env
    var fields: seq<Change>
    var truncated: bool
    var total: nat
    ghost var all: seq<Change>

    ghost predicate Valid()
      reads this
    {
      fields == Kept24(all) && total == |all| && (truncated <==> |all| > MAX_FIELDS)
    }

    constructor (env: Env)
      ensures Valid() && all == [] && this.env == env
    {
      this.env := env;
      fields, truncated, total, all := [], false, 0, [];
    }

    method Report(path: seq<Seg>, a: Option<Json>, b: Option<Json>)
      requires Valid()
      modifies this
      ensures Valid() && all == old(all) + [Change(path, a, b)]
    {
      total := total + 1;
      if |fields| < MAX_FIELDS { fields := fields + [Change(path, a, b)]; } else { truncated := true; }
      all := all + [Change(path, a, b)];
    }

    /** Compares two values, either of which may be absent. */
    method Diff(path: seq<Seg>, at: seq<Step>, a: Option<Json>, b: Option<Json>)
      requires Valid()
      modifies this
      ensures Valid() && all == old(all) + Under(path, Changes(env, at, a, b))
      decreases a.Some?, ValueOf(a), b.Some?, ValueOf(b), 1
    {
      hide Changes, ArrayIdentity, Blank, Identified, SortedKeys, KeyedChanges;
      if a.Some? && b.Some? && a.value.Obj? && b.value.Obj? {
        DiffObjects(path, at, a.value, b.value);
        return;
      }
      var key := Keying(env, at, a, b);
      if key.Some? {
        KeyedComparison(env, at, a, b, key.value);
        DiffKeyed(path, at, key.value, a, b);
        return;
      }
      LeafComparison(env, at, a, b);
      if a == b { return; }
      assert path + [] == path;
      assert Under(path, [Change([], a, b)]) == [Change(path, a, b)];
      Report(path, a, b);
    }

    /** Field by field, in the order of the names. */
    method DiffObjects(path: seq<Seg>, at: seq<Step>, a: Json, b: Json)
      requires Valid() && a.Obj? && b.Obj?
      modifies this
      ensures Valid() && all == old(all) + Under(path, Changes(env, at, Some(a), Some(b)))
      decreases true, a, true, b, 0
    {
      hide Under, ObjectChanges, Changes, Both, SortedKeys, Kept24;
      var names := SortedKeys(a.fields.Keys + b.fields.Keys);
      NothingToCompare(env, at, a, b);
      UnderNothing(path);
      assert names[..0] == [];
      for i := 0 to |names|
        invariant Valid() && all == old(all) + Under(path, ObjectChanges(env, at, a, b, names[..i]))
      {
        var name := names[i];
        assert name in names;
        NextField(env, path, at, a, b, names, i);
        FieldSmaller(a, b, name);
        Diff(path + [Key(name)], at + [Field(name)], Get(a.fields, name), Get(b.fields, name));
      }
      assert names[..|names|] == names;
      ObjectComparison(env, at, a, b);
    }

    /** Element by element, matched by identity, in the order of the identities. */
    method DiffKeyed(path: seq<Seg>, at: seq<Step>, key: string, a: Option<Json>, b: Option<Json>)
      requires Valid() && Identified(key, Items(a)) && Identified(key, Items(b))
      requires (a.Some? && a.value.List?) || NilLike(a)
      modifies this
      ensures Valid() && all == old(all)
          + Under(path, KeyedChanges(env, at, key, Items(a), Items(b), AllIds(key, Items(a), Items(b))))
      decreases a.Some?, ValueOf(a), b.Some?, ValueOf(b), 0
    {
      hide Under, Changes, Identified, IdSet, SortedKeys, KeyedChanges, Kept24, Identity, Lookup;
      var x, y := Items(a), Items(b);
      var ids := CollectIds(key, x, y);
      UnderNothing(path);
      NothingKeyed(env, at, key, x, y);
      assert ids[..0] == [];
      for i := 0 to |ids|
        invariant Valid() && all == old(all) + Under(path, KeyedChanges(env, at, key, x, y, ids[..i]))
      {
        var id := ids[i];
        assert id in ids;
        NextId(env, path, at, key, x, y, ids, i);
        var oldElement, newElement := Lookup(key, x, id), Lookup(key, y, id);
        Smaller(key, a, x, id);
        Smaller(key, b, y, id);
        SomeSide(key, x, y, id, ids);
        Diff(path + [Elem(id)], at + [Element], oldElement, newElement);
      }
      assert ids[..|ids|] == ids;
    }

    /** The identities of both lists, sorted. */
    method CollectIds(key: string, x: seq<Json>, y: seq<Json>) returns (ids: seq<string>)
      requires Identified(key, x) && Identified(key, y)
      ensures ids == AllIds(key, x, y)
    {
      hide Identity, SortedKeys;
      var seen: set<string> := {};
      for i := 0 to |x|
        invariant seen == IdSet(key, x[..i])
      {
        IdentifiedPrefix(key, x, i + 1);
        seen := seen + {Identity(key, x[i]).value};
      }
      assert x[..|x|] == x && y[..0] == [];
      ghost var fromOld := seen;
      for i := 0 to |y|
        invariant seen == fromOld + IdSet(key, y[..i])
      {
        IdentifiedPrefix(key, y, i + 1);
        seen := seen + {Identity(key, y[i]).value};
      }
      assert y[..|y|] == y;
      ids := SortedKeys(seen);
    }
  }

  lemma UnderNothing(path: seq<Seg>)
    ensures Under(path, []) == []
  {
  }

  lemma NothingKeyed(env: Env, at: seq<Step>, key: string, x: seq<Json>, y: seq<Json>)
    ensures KeyedChanges(env, at, key, x, y, []) == []
  {
  }

  lemma NextField(env: Env, path: seq<Seg>, at: seq<Step>, a: Json, b: Json, names: seq<string>, i: nat)
    requires a.Obj? && b.Obj? && i < |names| && (names[i] in a.fields || names[i] in b.fields)
    ensures Under(path, ObjectChanges(env, at, a, b, names[..i + 1])) ==
      Under(path, ObjectChanges(env, at, a, b, names[..i]))
      + Under(path + [Key(names[i])],
          Changes(env, at + [Field(names[i])], Get(a.fields, names[i]), Get(b.fields, names[i])))
  {
    hide Under, ObjectChanges, Changes;
    assert names[..i + 1][..i] == names[..i];
    ObjectSnoc(env, at, a, b, names[..i + 1]);
    UnderConcat(path, ObjectChanges(env, at, a, b, names[..i]),
        Prefixed(Key(names[i]), FieldChanges(env, at, a, b, names[i])));
    UnderPrefixed(path, Key(names[i]), FieldChanges(env, at, a, b, names[i]));
  }

  lemma NextId(env: Env, path: seq<Seg>, at: seq<Step>, key: string, x: seq<Json>, y: seq<Json>, ids: seq<string>,
          i: nat)
    requires i < |ids|
    ensures Under(path, KeyedChanges(env, at, key, x, y, ids[..i + 1])) ==
      Under(path, KeyedChanges(env, at, key, x, y, ids[..i]))
      + Under(path + [Elem(ids[i])], Changes(env, at + [Element], Lookup(key, x, ids[i]), Lookup(key, y, ids[i])))
  {
    hide Under, Changes, Lookup;
    assert ids[..i + 1][..i] == ids[..i];
    UnderConcat(path, KeyedChanges(env, at, key, x, y, ids[..i]),
        Prefixed(Elem(ids[i]), IdChanges(env, at, key, x, y, ids[i])));
    UnderPrefixed(path, Elem(ids[i]), IdChanges(env, at, key, x, y, ids[i]));
  }

  /** A field is smaller than the object it comes from. */
  lemma FieldSmaller(a: Json, b: Json, name: string)
    requires a.Obj? && b.Obj?
    ensures Get(a.fields, name).Some? ==> (a decreases to Get(a.fields, name).value)
    ensures Get(b.fields, name).Some? ==> (b decreases to Get(b.fields, name).value)
  {
  }

  lemma ObjectComparison(env: Env, at: seq<Step>, a: Json, b: Json)
    requires a.Obj? && b.Obj?
    ensures Changes(env, at, Some(a), Some(b)) ==
        ObjectChanges(env, at, a, b, SortedKeys(a.fields.Keys + b.fields.Keys))
  {
    hide SortedKeys, ObjectChanges;
  }

  /** An element is smaller than the list it comes from. */
  lemma Smaller(key: string, v: Option<Json>, items: seq<Json>, id: string)
    requires items == Items(v)
    ensures Lookup(key, items, id).Some? ==> v.Some? && (v.value decreases to Lookup(key, items, id).value)
  {
    hide Identity;
    var i := Position(key, items, id);
    if i < |items| { assert v.value.items[i] == items[i]; }
  }

  lemma SomeSide(key: string, x: seq<Json>, y: seq<Json>, id: string, ids: seq<string>)
    requires ids == AllIds(key, x, y) && id in ids
    ensures Lookup(key, x, id).Some? || Lookup(key, y, id).Some?
  {
    hide Identity, SortedKeys;
    IdSetHas(key, x, id);
    IdSetHas(key, y, id);
  }

  /** The result of comparing two canonical texts. Of two trees all changes are counted, the
      first MAX_FIELDS of them are kept, and the result is marked truncated exactly when
      there are more; a text that is no tree makes one change of the whole texts. */
  method DiffDetailed(env: Env, parse: string -> Option<Json>, oldRaw: string, newRaw: string)
    returns (fields: seq<Change>, truncated: bool, total: nat)
    ensures |fields| == (if total < 24 then total else 24) && InPathOrder(fields)
    ensures truncated <==> total > 24
    ensures parse(oldRaw).None? || parse(newRaw).None?
        ==> fields == [Change([], Some(Str(oldRaw)), Some(Str(newRaw)))] && total == 1
    ensures parse(oldRaw).Some? && parse(newRaw).Some? ==>
      var a, b := parse(oldRaw), parse(newRaw);
      && total == |Changes(env, [], a, b)| && fields <= Changes(env, [], a, b)
      && (total == 0 <==> Equiv(env, [], a.value, b.value))
      && (!truncated ==> (EquivOption(env, [], Patch(env.keys, a, fields), b)
          <==> !Vanishes(env, [], a.value, b.value)))
  {
    hide Changes, Equiv, Patch, Vanishes, Both, PathAtMost;
    var a, b := parse(oldRaw), parse(newRaw);
    if a.None? || b.None? {
      return [Change([], Some(Str(oldRaw)), Some(Str(newRaw)))], false, 1;
    }
    var d := new Comparison(env);
    d.Diff([], [], a, b);
    ghost var changes := Changes(env, [], a, b);
    assert d.all == changes by {
      forall i | 0 <= i < |changes| ensures [] + changes[i].path == changes[i].path {}
    }
    fields, truncated, total := d.fields, d.truncated, d.total;
    PresentChanges(env, a.value, b.value);
    NoChangeIffEquivalent(env, [], a.value, b.value);
    PatchedIffNothingVanishes(env, [], a, b);
    BothInOrder(env, [], a.value, b.value);
  }

  lemma PresentChanges(env: Env, a: Json, b: Json)
    ensures Changes(env, [], Some(a), Some(b)) == Both(env, [], a, b)
  {
    hide Both;
  }
}
