/** JSON trees as the comparison sees them: objects are maps, numbers are their shortest
    decimal text, and list elements may carry an identity.
 */
module Json {
  import opened Crypto
  import Sets

  datatype Json =
    | Null
    | Bool(value: bool)
    | Num(text: string)
    | Str(text: string)
    | List(items: seq<Json>)
    | Obj(fields: map<string, Json>)

  // ---------------------------------------------------------------- sorted keys

  /** Byte order of strings, reflexive. */
  predicate AtMost(a: string, b: string) {
    a == "" || (b != "" && (a[0] < b[0] || (a[0] == b[0] && AtMost(a[1..], b[1..]))))
  }

  lemma {:induction false} AtMostTotal(a: string, b: string)
    ensures AtMost(a, b) || AtMost(b, a)
    ensures AtMost(a, b) && AtMost(b, a) ==> a == b
  {
    if a != "" && b != "" {
      AtMostTotal(a[1..], b[1..]);
      if a[0] == b[0] && a[1..] == b[1..] { assert a == [a[0]] + a[1..] && b == [b[0]] + b[1..]; }
    }
  }

  lemma {:induction false} AtMostTransitive(a: string, b: string, c: string)
    requires AtMost(a, b) && AtMost(b, c)
    ensures AtMost(a, c)
  {
    if a != "" && a[0] == b[0] && b[0] == c[0] { AtMostTransitive(a[1..], b[1..], c[1..]); }
  }

  lemma {:induction false} LeastExists(s: set<string>)
    requires s != {}
    ensures exists m :: m in s && forall y | y in s :: AtMost(m, y)
    decreases |s|
  {
    hide AtMost;
    var x := Sets.Pick(s);
    var rest := s - {x};
    AtMostTotal(x, x);
    if rest == {} {
      forall y | y in s ensures y == x { assert y == x || y in rest; }
    } else {
      LeastExists(rest);
      var m :| m in rest && forall y | y in rest :: AtMost(m, y);
      AtMostTotal(x, m);
      var least := if AtMost(x, m) then x else m;
      forall y | y in s ensures AtMost(least, y) {
        if y != x && least == x { AtMostTransitive(x, m, y); }
      }
      assert least in s;
    }
  }

  lemma LeastUnique(s: set<string>)
    ensures forall m, n | m in s && n in s && (forall y | y in s :: AtMost(m, y))
        && (forall y | y in s :: AtMost(n, y)) :: m == n
  {
    hide AtMost;
    forall m, n | m in s && n in s && (forall y | y in s :: AtMost(m, y)) && (forall y | y in s :: AtMost(n, y))
      ensures m == n
    {
      AtMostTotal(m, n);
    }
  }

  /** The keys in order, each once. */
  function SortedKeys(s: set<string>): (r: seq<string>)
    ensures forall k :: k in r <==> k in s
    ensures forall i, j | 0 <= i < j < |r| :: r[i] != r[j] && AtMost(r[i], r[j])
    decreases |s|
  {
    if s == {} then []
    else
      LeastExists(s);
      LeastUnique(s);
      var least :| least in s && forall y | y in s :: AtMost(least, y);
      var rest := SortedKeys(s - {least});
      assert forall i | 0 <= i < |rest| :: rest[i] in rest && rest[i] in s - {least};
      [least] + rest
  }

  // ---------------------------------------------------------------- element identity

  const MAX_IDENTITY_BYTES := 128

  function Utf8Length(s: string): nat {
    if s == "" then 0
    else
      var c := s[0] as int;
      (if c < 0x80 then 1 else if c < 0x800 then 2 else if c < 0x1_0000 then 3 else 4) + Utf8Length(s[1..])
  }

  predicate Control(c: char) {
    (c as int) < 0x20 || 0x7F <= (c as int) < 0xA0
  }

  /** Text that may stand in a path between brackets. */
  predicate Usable(id: string) {
    id != "" && Utf8Length(id) <= MAX_IDENTITY_BYTES && forall c | c in id :: c != '[' && c != ']' && !Control(c)
  }

  function Get(fields: map<string, Json>, name: string): Option<Json> {
    if name in fields then Some(fields[name]) else None
  }

  function Identity(key: string, element: Json): Option<string> {
    if element.Obj? && key in element.fields && (element.fields[key].Str? || element.fields[key].Num?)
        && Usable(element.fields[key].text)
    then Some(element.fields[key].text) else None
  }

  /** Every element has its own identity under the key. */
  predicate Identified(key: string, items: seq<Json>) {
    && (forall i | 0 <= i < |items| :: Identity(key, items[i]).Some?)
    && (forall i, j | 0 <= i < j < |items| :: Identity(key, items[i]) != Identity(key, items[j]))
  }

  function IdSet(key: string, items: seq<Json>): set<string> {
    set i | 0 <= i < |items| && Identity(key, items[i]).Some? :: Identity(key, items[i]).value
  }

  predicate HasId(key: string, items: seq<Json>, id: string) {
    exists i | 0 <= i < |items| :: Identity(key, items[i]) == Some(id)
  }

  lemma IdSetHas(key: string, items: seq<Json>, id: string)
    ensures id in IdSet(key, items) <==> HasId(key, items, id)
  {
  }

  /** The position of an identified element, |items| when there is none. */
  function Position(key: string, items: seq<Json>, id: string): (r: nat)
    ensures r <= |items|
    ensures r < |items| ==> Identity(key, items[r]) == Some(id)
    ensures forall i | 0 <= i < r :: Identity(key, items[i]) != Some(id)
  {
    if items == [] || Identity(key, items[0]) == Some(id) then 0 else 1 + Position(key, items[1..], id)
  }

  function Lookup(key: string, items: seq<Json>, id: string): (r: Option<Json>)
    ensures r.Some? <==> HasId(key, items, id)
    ensures r.Some? ==> Identity(key, r.value) == Some(id)
  {
    var i := Position(key, items, id);
    if i < |items| then Some(items[i]) else None
  }

  lemma LookupAt(key: string, items: seq<Json>, i: nat)
    requires i < |items| && Identified(key, items)
    ensures Lookup(key, items, Identity(key, items[i]).value) == Some(items[i])
  {
    var id := Identity(key, items[i]).value;
    var p := Position(key, items, id);
    assert HasId(key, items, id);
    assert Identity(key, items[p]) == Identity(key, items[i]);
  }

  /** The first of the keys that identifies both lists. */
  function ArrayIdentity(keys: seq<string>, a: seq<Json>, b: seq<Json>): (r: Option<string>)
    ensures r.Some? ==> r.value in keys && Identified(r.value, a) && Identified(r.value, b)
    ensures r.None? ==> forall key | key in keys :: !(Identified(key, a) && Identified(key, b))
  {
    if keys == [] then None
    else if Identified(keys[0], a) && Identified(keys[0], b) then Some(keys[0])
    else ArrayIdentity(keys[1..], a, b)
  }

  // ---------------------------------------------------------------- what the two tests mean

  /** The order of names: a prefix comes first, otherwise the first difference decides. */
  lemma {:induction false} AtMostMeans(a: string, b: string)
    ensures AtMost(a, b) <==>
      a <= b || exists k :: 0 <= k < |a| && k < |b| && a[..k] == b[..k] && a[k] < b[k]
    decreases |a|
  {
    if a != "" && b != "" {
      AtMostMeans(a[1..], b[1..]);
      if a[0] == b[0] {
        forall k | 0 < k <= |a| && k <= |b| ensures a[..k] == b[..k] <==> a[1..][..k - 1] == b[1..][..k - 1] {
          assert a[..k] == [a[0]] + a[1..][..k - 1] && b[..k] == [b[0]] + b[1..][..k - 1];
        }
        if k :| 0 <= k < |a[1..]| && k < |b[1..]| && a[1..][..k] == b[1..][..k] && a[1..][k] < b[1..][k] {
          assert a[..k + 1] == b[..k + 1] && a[k + 1] < b[k + 1];
        }
        if k :| 0 <= k < |a| && k < |b| && a[..k] == b[..k] && a[k] < b[k] {
          assert a[1..][..k - 1] == b[1..][..k - 1] && a[1..][k - 1] < b[1..][k - 1];
        }
      } else {
        forall k | 0 < k <= |a| && k <= |b| ensures a[..k] != b[..k] {
          assert a[..k][0] == a[0] && b[..k][0] == b[0];
        }
        assert a[0] < b[0] ==> a[..0] == b[..0];
      }
    }
  }

  /** The positions whose code point takes at least so many values. */
  function From(s: string, bound: int): set<int> {
    set i | 0 <= i < |s| && s[i] as int >= bound
  }

  lemma FromRest(s: string, bound: int)
    requires s != ""
    ensures |From(s, bound)| == |From(s[1..], bound)| + if s[0] as int >= bound then 1 else 0
  {
    var shifted := Shifted(From(s[1..], bound));
    ShiftedSize(From(s[1..], bound));
    forall i ensures i in shifted <==> i in From(s, bound) && i > 0 {
      if i in From(s, bound) && i > 0 { assert i - 1 in From(s[1..], bound); }
    }
    assert From(s, bound) == shifted + if s[0] as int >= bound then {0} else {};
  }

  function Shifted(s: set<int>): set<int> {
    set i | i in s :: i + 1
  }

  lemma {:induction false} ShiftedSize(s: set<int>)
    ensures |Shifted(s)| == |s|
    decreases |s|
  {
    if s != {} {
      var x := Sets.Pick(s);
      ShiftedSize(s - {x});
      assert x + 1 !in Shifted(s - {x});
      forall i ensures i in Shifted(s) <==> i in Shifted(s - {x}) + {x + 1} {
        if i == x + 1 { assert x in s; }
        if i in Shifted(s) && i != x + 1 { assert i - 1 in s - {x}; }
      }
      assert Shifted(s) == Shifted(s - {x}) + {x + 1};
    }
  }

  lemma {:induction false} Utf8Means(s: string)
    ensures Utf8Length(s) == |s| + |From(s, 0x80)| + |From(s, 0x800)| + |From(s, 0x1_0000)|
    decreases |s|
  {
    hide From;
    if s == "" {
      NothingFrom();
    } else {
      Utf8Means(s[1..]);
      FromRest(s, 0x80); FromRest(s, 0x800); FromRest(s, 0x1_0000);
    }
  }

  lemma NothingFrom()
    ensures forall bound :: From("", bound) == {}
  {
  }

  /** An element is identified by a text or number that is not empty, takes at most 128
      bytes and has no bracket and no control character. */
  lemma IdentityIff(key: string, element: Json, id: string)
    ensures Identity(key, element) == Some(id) <==>
      && element.Obj? && key in element.fields && (element.fields[key] == Str(id) || element.fields[key] == Num(id))
      && id != "" && |id| + |From(id, 0x80)| + |From(id, 0x800)| + |From(id, 0x1_0000)| <= 128
      && forall c | c in id :: c !in "[]" && !(c as int <= 0x1F || 0x7F <= c as int <= 0x9F)
  {
    hide From, Utf8Length;
    Utf8Means(id);
  }
}
