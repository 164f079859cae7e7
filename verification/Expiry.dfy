/** The expiry warning planner, one check and whole runs of checks.
 */
module Expiry {
  import opened Crypto
  import opened Sets
  import Json

  /** Times are nanoseconds. */
  const SECOND := 1_000_000_000
  const DAY := 86_400 * SECOND

  datatype Kind = Device | AuthKey

  datatype Key = Key(kind: Kind, id: string)

  datatype Item = Item(key: Key, expires: int)

  /** The stored expiry has whole seconds; windows are descending. */
  datatype Alert = Alert(expires: int, windows: seq<int>)

  datatype State = State(generation: int, alerts: map<Key, Alert>)

  datatype Warning = Warning(window: int, items: seq<Item>)

  // ---------------------------------------------------------------- windows

  function PositiveOf(values: seq<int>): set<int> {
    set v | v in values && v > 0
  }

  /** The positive values, each once, largest first. */
  function DescendingUnique(values: seq<int>): (r: seq<int>)
    ensures forall v | v in r :: v in values && v > 0
    ensures forall i, j | 0 <= i < j < |r| :: r[i] > r[j]
  {
    var positive := PositiveOf(values);
    assert forall v | v in positive :: v in values && v > 0;
    TopIds(positive, |positive|)
  }

  predicate Crosses(remaining: int, window: int) {
    remaining <= window * DAY
  }

  /** The windows an item is inside, of an ordered list. */
  function Crossed(windows: seq<int>, remaining: int): (r: seq<int>)
    ensures forall w :: w in r <==> w in windows && Crosses(remaining, w)
  {
    if windows == [] then []
    else
      var n := |windows| - 1;
      assert windows == windows[..n] + [windows[n]];
      var before := Crossed(windows[..n], remaining);
      if Crosses(remaining, windows[n]) then before + [windows[n]] else before
  }

  lemma {:induction false} CrossedDescends(windows: seq<int>, remaining: int)
    requires forall i, j | 0 <= i < j < |windows| :: windows[i] > windows[j]
    ensures forall i, j | 0 <= i < j < |Crossed(windows, remaining)| ::
        Crossed(windows, remaining)[i] > Crossed(windows, remaining)[j]
    decreases |windows|
  {
    if windows != [] {
      var n := |windows| - 1;
      CrossedDescends(windows[..n], remaining);
      var before := Crossed(windows[..n], remaining);
      forall i | 0 <= i < |before| ensures before[i] > windows[n] {
        var w := before[i];
        assert w in before && w in windows[..n];
      }
    }
  }

  /** The windows an unexpired item is inside at a time. */
  function Inside(windows: seq<int>, item: Item, now: int): seq<int> {
    if item.expires <= now then [] else Crossed(DescendingUnique(windows), item.expires - now)
  }

  function Stamp(expires: int): int {
    expires / SECOND
  }

  // ---------------------------------------------------------------- one check

  /** What is remembered of an item: nothing once its expiry changed. */
  function Remembered(previous: State, generation: int, item: Item): seq<int> {
    if previous.generation == generation && item.key in previous.alerts
        && previous.alerts[item.key].expires == Stamp(item.expires)
    then previous.alerts[item.key].windows else []
  }

  // ---------------------------------------------------------------- the order within a warning

  function Rank(kind: Kind): nat {
    match kind
    case AuthKey => 0
    case Device => 1
  }

  /** By expiry, then by the name of the kind, then by ID. */
  predicate NotAfter(a: Item, b: Item) {
    a.expires < b.expires
    || (a.expires == b.expires
        && (Rank(a.key.kind) < Rank(b.key.kind) || (a.key.kind == b.key.kind && Json.AtMost(a.key.id, b.key.id))))
  }

  ghost predicate InOrder(s: seq<Item>) {
    forall i, j | 0 <= i < j < |s| :: NotAfter(s[i], s[j])
  }

  lemma OrderIsTotal(a: Item, b: Item)
    ensures NotAfter(a, b) || NotAfter(b, a)
    ensures NotAfter(a, b) && NotAfter(b, a) ==> a == b
  {
    hide Json.AtMost;
    Json.AtMostTotal(a.key.id, b.key.id);
  }

  lemma OrderIsTransitive(a: Item, b: Item, c: Item)
    requires NotAfter(a, b) && NotAfter(b, c)
    ensures NotAfter(a, c)
  {
    hide Json.AtMost;
    if Json.AtMost(a.key.id, b.key.id) && Json.AtMost(b.key.id, c.key.id) {
      Json.AtMostTransitive(a.key.id, b.key.id, c.key.id);
    }
  }

  /** An item behind the last one that it is not before. */
  function Placed(s: seq<Item>, item: Item): (r: seq<Item>)
    ensures multiset(r) == multiset(s) + multiset{item}
  {
    if s == [] || NotAfter(s[|s| - 1], item) then s + [item]
    else
      assert s == s[..|s| - 1] + [s[|s| - 1]];
      Placed(s[..|s| - 1], item) + [s[|s| - 1]]
  }

  function SortedItems(s: seq<Item>): (r: seq<Item>)
    ensures multiset(r) == multiset(s)
  {
    if s == [] then []
    else
      assert s == s[..|s| - 1] + [s[|s| - 1]];
      Placed(SortedItems(s[..|s| - 1]), s[|s| - 1])
  }

  lemma PlacedMembers(s: seq<Item>, item: Item)
    ensures forall x | x in Placed(s, item) :: x in s || x == item
  {
    hide Placed;
    forall x | x in Placed(s, item) ensures x in s || x == item { assert x in multiset(Placed(s, item)); }
  }

  lemma InOrderSnoc(s: seq<Item>, last: Item)
    requires InOrder(s) && forall x | x in s :: NotAfter(x, last)
    ensures InOrder(s + [last])
  {
    hide NotAfter;
    assert forall i | 0 <= i < |s| :: s[i] in s;
  }

  lemma {:induction false} PlacedInOrder(s: seq<Item>, item: Item)
    requires InOrder(s)
    ensures InOrder(Placed(s, item))
    decreases |s|
  {
    hide NotAfter;
    if s == [] {
      InOrderSnoc(s, item);
    } else {
      var n := |s| - 1;
      OrderIsTotal(s[n], item);
      if NotAfter(s[n], item) {
        forall x | x in s ensures NotAfter(x, item) {
          var i :| 0 <= i < |s| && s[i] == x;
          if i < n { OrderIsTransitive(x, s[n], item); }
        }
        InOrderSnoc(s, item);
      } else {
        PlacedInOrder(s[..n], item);
        PlacedMembers(s[..n], item);
        InOrderSnoc(Placed(s[..n], item), s[n]);
      }
    }
  }

  /** The items of a warning are those of its group, soonest first. */
  lemma {:induction false} SortedInOrder(s: seq<Item>)
    ensures InOrder(SortedItems(s)) && forall item :: item in SortedItems(s) <==> item in s
    ensures |SortedItems(s)| == |s|
    decreases |s|
  {
    hide NotAfter, Placed;
    if s != [] {
      SortedInOrder(s[..|s| - 1]);
      PlacedInOrder(SortedItems(s[..|s| - 1]), s[|s| - 1]);
    }
    assert forall item :: item in SortedItems(s) <==> item in multiset(SortedItems(s));
    assert |multiset(SortedItems(s))| == |multiset(s)|;
  }

  /** An item is warned for its tightest window, unless it was already. */
  predicate WarnedFor(previous: State, generation: int, windows: seq<int>, now: int, item: Item, window: int) {
    var inside := Inside(windows, item, now);
    inside != [] && inside[|inside| - 1] == window && window !in Remembered(previous, generation, item)
  }

  function Group(previous: State, generation: int, items: seq<Item>, windows: seq<int>, now: int,
          window: int): (r: seq<Item>)
    ensures forall item :: item in r <==> item in items && WarnedFor(previous, generation, windows, now, item, window)
    decreases |items|
  {
    if items == [] then []
    else
      var n := |items| - 1;
      assert items == items[..n] + [items[n]];
      Group(previous, generation, items[..n], windows, now, window)
        + (if WarnedFor(previous, generation, windows, now, items[n], window) then [items[n]] else [])
  }

  function AlertOf(previous: State, generation: int, item: Item, inside: seq<int>): Alert {
    Alert(Stamp(item.expires), DescendingUnique(Remembered(previous, generation, item) + inside))
  }

  function NextAlerts(previous: State, generation: int, items: seq<Item>, windows: seq<int>, now: int): map<Key, Alert>
    decreases |items|
  {
    if items == [] then map[]
    else
      var item := items[|items| - 1];
      var before := NextAlerts(previous, generation, items[..|items| - 1], windows, now);
      var inside := Inside(windows, item, now);
      if inside == [] then before else before[item.key := AlertOf(previous, generation, item, inside)]
  }

  function Warnings(previous: State, generation: int, items: seq<Item>, windows: seq<int>, now: int,
          listed: seq<int>): seq<Warning>
    decreases |listed|
  {
    if listed == [] then []
    else
      var window := listed[|listed| - 1];
      var group := Group(previous, generation, items, windows, now, window);
      Warnings(previous, generation, items, windows, now, listed[..|listed| - 1])
          + (if group == [] then [] else [Warning(window, SortedItems(group))])
  }

  lemma UniqueCovers(values: seq<int>)
    ensures forall v :: v in DescendingUnique(values) <==> v in values && v > 0
  {
    hide TopIds;
    TopCovers(PositiveOf(values));
  }

  // ---------------------------------------------------------------- each item once

  ghost predicate DistinctKeys(items: seq<Item>) {
    forall i, j | 0 <= i < j < |items| :: items[i].key != items[j].key
  }

  /** One warning per window that has items, in the order of the windows. */
  ghost predicate Shaped(previous: State, generation: int, items: seq<Item>, windows: seq<int>, now: int,
          listed: seq<int>, r: seq<Warning>) {
    && (forall i | 0 <= i < |r| ::
          && r[i].window in listed
          && r[i].items == SortedItems(Group(previous, generation, items, windows, now, r[i].window)))
    && (forall i, j | 0 <= i < j < |r| :: r[i].window > r[j].window)
    && (forall w | w in listed && Group(previous, generation, items, windows, now, w) != [] ::
          exists i | 0 <= i < |r| :: r[i].window == w)
  }

  lemma ShapedSnoc(previous: State, generation: int, items: seq<Item>, windows: seq<int>, now: int,
          listed: seq<int>, r: seq<Warning>, window: int)
    requires Shaped(previous, generation, items, windows, now, listed, r)
    requires forall w | w in listed :: w > window
    ensures var group := Group(previous, generation, items, windows, now, window);
      Shaped(previous, generation, items, windows, now, listed + [window],
             r + (if group == [] then [] else [Warning(window, SortedItems(group))]))
  {
    hide Group, SortedItems;
    var group := Group(previous, generation, items, windows, now, window);
    var next := r + (if group == [] then [] else [Warning(window, SortedItems(group))]);
    forall w | w in listed + [window] && Group(previous, generation, items, windows, now, w) != []
      ensures exists i | 0 <= i < |next| :: next[i].window == w
    {
      if w in listed {
        var i :| 0 <= i < |r| && r[i].window == w;
        assert next[i] == r[i];
      } else {
        assert next[|r|].window == w;
      }
    }
  }

  lemma {:induction false} WarningsShape(previous: State, generation: int, items: seq<Item>, windows: seq<int>,
          now: int, listed: seq<int>)
    requires forall i, j | 0 <= i < j < |listed| :: listed[i] > listed[j]
    ensures Shaped(previous, generation, items, windows, now, listed,
                   Warnings(previous, generation, items, windows, now, listed))
    decreases |listed|
  {
    hide Group, SortedItems;
    if listed != [] {
      hide Shaped;
      var n := |listed| - 1;
      var before := listed[..n];
      WarningsShape(previous, generation, items, windows, now, before);
      ShapedSnoc(previous, generation, items, windows, now, before,
                 Warnings(previous, generation, items, windows, now, before), listed[n]);
      assert before + [listed[n]] == listed;
    }
  }

  /** In one check an item inside some window is warned exactly once, for its tightest
      window, or not at all when it was already warned for that one. */
  lemma WarnedExactlyOnce(previous: State, generation: int, items: seq<Item>, windows: seq<int>, now: int, item: Item)
    requires item in items && Inside(windows, item, now) != []
    ensures var inside := Inside(windows, item, now);
      var tightest := inside[|inside| - 1];
      var r := Warnings(previous, generation, items, windows, now, DescendingUnique(windows));
      && (forall w | w in inside :: tightest <= w)
      && (forall i | 0 <= i < |r| ::
          item in r[i].items <==> r[i].window == tightest && tightest !in Remembered(previous, generation, item))
      && (tightest !in Remembered(previous, generation, item) ==> exists i | 0 <= i < |r| :: item in r[i].items)
      && (forall i, j | 0 <= i < j < |r| :: r[i].window != r[j].window)
      && (forall i | 0 <= i < |r| :: InOrder(r[i].items))
  {
    hide Remembered, DescendingUnique, Warnings, Inside, SortedItems, InOrder;
    TightestIsLeast(windows, item, now);
    WarningsShape(previous, generation, items, windows, now, DescendingUnique(windows));
    var r := Warnings(previous, generation, items, windows, now, DescendingUnique(windows));
    var tightest := Inside(windows, item, now)[|Inside(windows, item, now)| - 1];
    forall i | 0 <= i < |r|
      ensures InOrder(r[i].items)
      ensures item in r[i].items <==> item in Group(previous, generation, items, windows, now, r[i].window)
    {
      SortedInOrder(Group(previous, generation, items, windows, now, r[i].window));
    }
    assert item in Group(previous, generation, items, windows, now, tightest)
        <==> tightest !in Remembered(previous, generation, item);
  }

  lemma TightestIsLeast(windows: seq<int>, item: Item, now: int)
    requires Inside(windows, item, now) != []
    ensures var inside := Inside(windows, item, now);
      var tightest := inside[|inside| - 1];
      tightest in DescendingUnique(windows) && forall w | w in inside :: tightest <= w
  {
    hide TopIds, Crossed, DescendingUnique;
    var inside := Inside(windows, item, now);
    assert inside[|inside| - 1] in inside;
    CrossedDescends(DescendingUnique(windows), item.expires - now);
    forall w | w in inside ensures inside[|inside| - 1] <= w { var i :| 0 <= i < |inside| && inside[i] == w; }
  }

  // ---------------------------------------------------------------- the state

  lemma {:induction false} AlertsShape(previous: State, generation: int, items: seq<Item>, windows: seq<int>, now: int)
    requires DistinctKeys(items)
    ensures var alerts := NextAlerts(previous, generation, items, windows, now);
      && (forall key | key in alerts :: exists item | item in items ::
          item.key == key && Inside(windows, item, now) != [])
      && (forall item | item in items && Inside(windows, item, now) != [] ::
            item.key in alerts && alerts[item.key] == AlertOf(previous, generation, item, Inside(windows, item, now)))
    decreases |items|
  {
    hide Inside, AlertOf;
    if items != [] {
      var n := |items| - 1;
      assert items == items[..n] + [items[n]];
      AlertsShape(previous, generation, items[..n], windows, now);
      forall item | item in items[..n] ensures item.key != items[n].key {
        var i :| 0 <= i < n && items[i] == item;
      }
    }
  }

  /** The state holds exactly the items inside some window, and every window an item is
      inside counts as warned. */
  lemma StateHoldsInside(previous: State, generation: int, items: seq<Item>, windows: seq<int>, now: int)
    requires DistinctKeys(items)
    ensures var alerts := NextAlerts(previous, generation, items, windows, now);
      && (forall key :: key in alerts <==> exists item | item in items ::
          item.key == key && Inside(windows, item, now) != [])
      && (forall item | item in items && Inside(windows, item, now) != [] ::
            && alerts[item.key].expires == Stamp(item.expires)
            && forall w :: w in alerts[item.key].windows <==>
                (w > 0 && (w in Remembered(previous, generation, item) || w in Inside(windows, item, now))))
  {
    hide Inside, Remembered, DescendingUnique, NextAlerts;
    AlertsShape(previous, generation, items, windows, now);
    forall item | item in items && Inside(windows, item, now) != []
      ensures forall w :: (w in AlertOf(previous, generation, item, Inside(windows, item, now)).windows
        <==> w > 0 && (w in Remembered(previous, generation, item) || w in Inside(windows, item, now)))
    {
      UniqueCovers(Remembered(previous, generation, item) + Inside(windows, item, now));
    }
  }

  // ---------------------------------------------------------------- runs

  datatype Check = Check(generation: int, items: seq<Item>, windows: seq<int>, now: int)

  function Next(previous: State, check: Check): State {
    State(check.generation, NextAlerts(previous, check.generation, check.items, check.windows, check.now))
  }

  function After(start: State, checks: seq<Check>): State {
    if checks == [] then start else Next(After(start, checks[..|checks| - 1]), checks[|checks| - 1])
  }

  ghost predicate WarnedAt(start: State, checks: seq<Check>, i: nat, item: Item, window: int)
    requires i < |checks|
  {
    item in checks[i].items && WarnedFor(After(start, checks[..i]), checks[i].generation, checks[i].windows,
        checks[i].now, item, window)
  }

  /** The item is present with an unchanged expiry and inside some window. */
  ghost predicate HeldAt(check: Check, generation: int, key: Key, stamp: int) {
    && check.generation == generation && DistinctKeys(check.items)
    && exists item | item in check.items ::
        item.key == key && Stamp(item.expires) == stamp && Inside(check.windows, item, check.now) != []
  }

  ghost predicate Marks(s: State, generation: int, key: Key, stamp: int, window: int) {
    s.generation == generation && key in s.alerts && s.alerts[key].expires == stamp && window in s.alerts[key].windows
  }

  lemma HeldKeepsMark(s: State, check: Check, key: Key, stamp: int, window: int)
    requires HeldAt(check, check.generation, key, stamp) && window > 0
    requires Marks(s, check.generation, key, stamp, window)
      || exists item | item in check.items ::
          item.key == key && Stamp(item.expires) == stamp && window in Inside(check.windows, item, check.now)
    ensures Marks(Next(s, check), check.generation, key, stamp, window)
  {
    hide Inside, NextAlerts, Stamp;
    StateHoldsInside(s, check.generation, check.items, check.windows, check.now);
    var item :| item in check.items && item.key == key && Stamp(item.expires) == stamp
        && Inside(check.windows, item, check.now) != [];
    if !Marks(s, check.generation, key, stamp, window) {
      var other :| other in check.items && other.key == key && Stamp(other.expires) == stamp
          && window in Inside(check.windows, other, check.now);
      SameKeySameItem(check.items, item, other);
    }
  }

  lemma SameKeySameItem(items: seq<Item>, a: Item, b: Item)
    requires DistinctKeys(items) && a in items && b in items && a.key == b.key
    ensures a == b
  {
    var i :| 0 <= i < |items| && items[i] == a;
    var j :| 0 <= j < |items| && items[j] == b;
    assert i == j;
  }

  /** A mark set at check i is still there after check j when the item is held throughout. */
  lemma {:induction false} MarkLasts(start: State, checks: seq<Check>, i: nat, j: nat, item: Item, window: int)
    requires i <= j < |checks| && WarnedAt(start, checks, i, item, window)
    requires forall m | i <= m <= j :: HeldAt(checks[m], checks[i].generation, item.key, Stamp(item.expires))
    ensures Marks(After(start, checks[..j + 1]), checks[i].generation, item.key, Stamp(item.expires), window)
    decreases j
  {
    hide Inside, NextAlerts, Stamp, After, HeldAt, Remembered;
    var generation, stamp := checks[i].generation, Stamp(item.expires);
    AfterSnoc(start, checks, j);
    assert HeldAt(checks[j], generation, item.key, stamp) by { assert i <= j <= j; }
    HeldGeneration(checks[j], generation, item.key, stamp);
    if i < j {
      MarkLasts(start, checks, i, j - 1, item, window);
      MarkPositive(checks[i], item, window);
    } else {
      MarkPositive(checks[i], item, window);
    }
    HeldKeepsMark(After(start, checks[..j]), checks[j], item.key, stamp, window);
  }

  lemma HeldGeneration(check: Check, generation: int, key: Key, stamp: int)
    requires HeldAt(check, generation, key, stamp)
    ensures check.generation == generation && HeldAt(check, check.generation, key, stamp)
  {
  }

  lemma MarkPositive(check: Check, item: Item, window: int)
    requires var inside := Inside(check.windows, item, check.now); inside != [] && inside[|inside| - 1] == window
    ensures window > 0 && window in Inside(check.windows, item, check.now)
  {
    hide DescendingUnique, Crossed;
    var inside := Inside(check.windows, item, check.now);
    assert inside[|inside| - 1] in inside;
  }

  lemma AfterSnoc(start: State, checks: seq<Check>, j: nat)
    requires j < |checks|
    ensures After(start, checks[..j + 1]) == Next(After(start, checks[..j]), checks[j])
  {
    assert checks[..j + 1][..j] == checks[..j];
  }

  /** An item held at every check in between is not warned twice for the same window. */
  lemma WarnedAtMostOnce(start: State, checks: seq<Check>, i: nat, j: nat, a: Item, b: Item, window: int)
    requires i < j < |checks| && checks[j].generation == checks[i].generation
    requires a.key == b.key && Stamp(a.expires) == Stamp(b.expires)
    requires forall m | i <= m < j :: HeldAt(checks[m], checks[i].generation, a.key, Stamp(a.expires))
    requires WarnedAt(start, checks, i, a, window)
    ensures !WarnedAt(start, checks, j, b, window)
  {
    hide Inside, NextAlerts, Stamp, After, HeldAt;
    MarkLasts(start, checks, i, j - 1, a, window);
  }

  /** One generation, fixed windows and time that does not run backwards: an item present
      at every check with an unchanged expiry is warned at most once per window. */
  lemma OncePerWindow(start: State, checks: seq<Check>, i: nat, j: nat, item: Item, window: int)
    requires i < j < |checks|
    requires forall m | i <= m <= j ::
      && checks[m].generation == checks[i].generation && checks[m].windows == checks[i].windows
      && DistinctKeys(checks[m].items) && item in checks[m].items
    requires forall m, n | i <= m <= n <= j :: checks[m].now <= checks[n].now
    requires WarnedAt(start, checks, i, item, window)
    ensures !WarnedAt(start, checks, j, item, window)
  {
    hide NextAlerts, Stamp, After, Remembered, DescendingUnique, Crossed;
    MarkPositive(checks[i], item, window);
    if item.expires > checks[j].now {
      forall m | i <= m < j ensures HeldAt(checks[m], checks[i].generation, item.key, Stamp(item.expires)) {
        assert checks[i].now <= checks[m].now <= checks[j].now;
        assert window in Inside(checks[m].windows, item, checks[m].now);
      }
      WarnedAtMostOnce(start, checks, i, j, item, item, window);
    }
  }

  // ---------------------------------------------------------------- the loops

  method CrossedWindows(windows: seq<int>, remaining: int) returns (crossed: seq<int>)
    ensures crossed == Crossed(windows, remaining)
  {
    crossed := [];
    for i := 0 to |windows|
      invariant crossed == Crossed(windows[..i], remaining)
    {
      assert windows[..i + 1][..i] == windows[..i];
      if remaining <= windows[i] * DAY { crossed := crossed + [windows[i]]; }
    }
    assert windows[..|windows|] == windows;
  }

  lemma GroupSnoc(previous: State, generation: int, items: seq<Item>, windows: seq<int>, now: int, window: int, i: nat)
    requires i < |items|
    ensures Group(previous, generation, items[..i + 1], windows, now, window) ==
      Group(previous, generation, items[..i], windows, now, window)
      + (if WarnedFor(previous, generation, windows, now, items[i], window) then [items[i]] else [])
  {
    assert items[..i + 1][..i] == items[..i];
  }

  lemma AlertsSnoc(previous: State, generation: int, items: seq<Item>, windows: seq<int>, now: int, i: nat)
    requires i < |items|
    ensures var before, inside := NextAlerts(previous, generation, items[..i], windows, now),
        Inside(windows, items[i], now);
      NextAlerts(previous, generation, items[..i + 1], windows, now) ==
        if inside == [] then before else before[items[i].key := AlertOf(previous, generation, items[i], inside)]
  {
    assert items[..i + 1][..i] == items[..i];
  }

  /** The groups and the next state are built in one pass, the warnings in window order. */
  method Plan(previous: State, generation: int, items: seq<Item>, windows: seq<int>, now: int)
    returns (warnings: seq<Warning>, next: State)
    ensures warnings == Warnings(previous, generation, items, windows, now, DescendingUnique(windows))
    ensures next == Next(previous, Check(generation, items, windows, now))
  {
    hide Group, NextAlerts, Warnings, DescendingUnique, Crossed;
    var listed := DescendingUnique(windows);
    var alerts: map<Key, Alert> := map[];
    var grouped: map<int, seq<Item>> := map[];
    NothingPlanned(previous, generation, windows, now);
    assert items[..0] == [];
    for i := 0 to |items|
      invariant alerts == NextAlerts(previous, generation, items[..i], windows, now)
      invariant forall w ::
          Group(previous, generation, items[..i], windows, now, w) == if w in grouped then grouped[w] else []
    {
      var item := items[i];
      AlertsSnoc(previous, generation, items, windows, now, i);
      forall w ensures Group(previous, generation, items[..i + 1], windows, now, w) ==
        Group(previous, generation, items[..i], windows, now, w)
            + (if WarnedFor(previous, generation, windows, now, item, w) then [item] else [])
      {
        GroupSnoc(previous, generation, items, windows, now, w, i);
      }
      var crossed := [];
      if item.expires - now > 0 { crossed := CrossedWindows(listed, item.expires - now); }
      assert crossed == Inside(windows, item, now);
      if |crossed| > 0 {
        var remembered := Remembered(previous, generation, item);
        var tightest := crossed[|crossed| - 1];
        if tightest !in remembered {
          grouped := grouped[tightest := (if tightest in grouped then grouped[tightest] else []) + [item]];
        }
        alerts := alerts[item.key := Alert(Stamp(item.expires), DescendingUnique(remembered + crossed))];
      }
    }
    assert items[..|items|] == items;
    next := State(generation, alerts);
    warnings := [];
    for i := 0 to |listed|
      invariant warnings == Warnings(previous, generation, items, windows, now, listed[..i])
    {
      WarningsSnoc(previous, generation, items, windows, now, listed, i);
      var group := if listed[i] in grouped then grouped[listed[i]] else [];
      if |group| > 0 { warnings := warnings + [Warning(listed[i], SortedItems(group))]; }
    }
    assert listed[..|listed|] == listed;
  }

  lemma NothingPlanned(previous: State, generation: int, windows: seq<int>, now: int)
    ensures NextAlerts(previous, generation, [], windows, now) == map[]
    ensures forall w :: Group(previous, generation, [], windows, now, w) == []
    ensures forall items :: Warnings(previous, generation, items, windows, now, []) == []
  {
  }

  lemma WarningsSnoc(previous: State, generation: int, items: seq<Item>, windows: seq<int>, now: int,
          listed: seq<int>, i: nat)
    requires i < |listed|
    ensures var group := Group(previous, generation, items, windows, now, listed[i]);
      Warnings(previous, generation, items, windows, now, listed[..i + 1]) ==
        Warnings(previous, generation, items, windows, now, listed[..i])
            + (if group == [] then [] else [Warning(listed[i], SortedItems(group))])
  {
    hide Group;
    assert listed[..i + 1][..i] == listed[..i];
  }
}
