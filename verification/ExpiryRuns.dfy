/** Which check of a run warns of an item, and for which window, said on the checks alone.
 */
module ExpiryRuns {
  import opened Crypto
  import opened Sets
  import opened Expiry
  import Json

  /** The item is inside the window at this check: it expires within so many days. */
  predicate Within(check: Check, item: Item, window: int) {
    && window in check.windows && window > 0 && check.now < item.expires
    && item.expires - check.now <= window * (24 * 60 * 60 * 1_000_000_000)
  }

  /** The check sees the item in this generation, with this expiry to the second. */
  predicate Sees(check: Check, generation: int, key: Key, second: int, item: Item) {
    check.generation == generation && item in check.items && item.key == key && item.expires / 1_000_000_000 == second
  }

  ghost predicate Entered(check: Check, generation: int, key: Key, second: int, window: int) {
    exists item | item in check.items :: Sees(check, generation, key, second, item) && Within(check, item, window)
  }

  ghost predicate Held(check: Check, generation: int, key: Key, second: int) {
    exists window | window in check.windows :: Entered(check, generation, key, second, window)
  }

  /** The item was inside the window at one of the checks, and inside some window, unchanged,
      at every check since. */
  ghost predicate Remembers(checks: seq<Check>, generation: int, key: Key, second: int, window: int) {
    exists j :: 0 <= j < |checks| && Entered(checks[j], generation, key, second, window)
      && forall m | j <= m < |checks| :: Held(checks[m], generation, key, second)
  }

  lemma WithinIff(check: Check, item: Item, window: int)
    ensures window in Inside(check.windows, item, check.now) <==> Within(check, item, window)
  {
    hide TopIds;
    UniqueCovers(check.windows);
  }

  lemma HeldIff(check: Check, generation: int, key: Key, second: int)
    ensures Held(check, generation, key, second) <==> exists item | item in check.items ::
      Sees(check, generation, key, second, item) && Inside(check.windows, item, check.now) != []
  {
    hide Inside, Within;
    forall item, window ensures window in Inside(check.windows, item, check.now) <==> Within(check, item, window) {
      WithinIff(check, item, window);
    }
    if item :| (item in check.items && Sees(check, generation, key, second, item)
                && Inside(check.windows, item, check.now) != []) {
      var window := Inside(check.windows, item, check.now)[0];
      assert window in Inside(check.windows, item, check.now);
      WindowListed(check, item, window);
    }
  }

  lemma WindowListed(check: Check, item: Item, window: int)
    requires Within(check, item, window)
    ensures window in check.windows && window > 0
  {
  }

  /** One check keeps a mark of an item it holds, sets those of the windows the item is
      inside, and drops every other. */
  lemma MarksNext(s: State, check: Check, generation: int, key: Key, second: int, window: int)
    requires DistinctKeys(check.items)
    ensures Marks(Next(s, check), generation, key, second, window) <==>
      && Held(check, generation, key, second)
      && (Entered(check, generation, key, second, window)
          || (window > 0 && Marks(s, generation, key, second, window)))
  {
    hide Inside, NextAlerts, Remembered, Held, Within;
    StateHoldsInside(s, check.generation, check.items, check.windows, check.now);
    HeldIff(check, generation, key, second);
    if item :| item in check.items && Sees(check, generation, key, second, item) {
      forall other | other in check.items && other.key == key ensures other == item {
        SameKeySameItem(check.items, item, other);
      }
      WithinIff(check, item, window);
      if Within(check, item, window) { WindowListed(check, item, window); }
      RememberedIff(s, check, item, window);
      var inside := Inside(check.windows, item, check.now);
      assert Held(check, generation, key, second) <==> inside != [];
      assert Entered(check, generation, key, second, window) <==> window in inside;
      var next := Next(s, check);
      assert item.key in next.alerts <==> inside != [];
      if inside != [] {
        assert next.alerts[item.key].expires == second;
        assert window in next.alerts[item.key].windows <==>
          window > 0 && (window in Remembered(s, check.generation, item) || window in inside);
      }
    }
  }

  lemma RememberedIff(s: State, check: Check, item: Item, window: int)
    ensures window in Remembered(s, check.generation, item) <==>
      Marks(s, check.generation, item.key, item.expires / 1_000_000_000, window)
  {
  }

  /** A state that started without marks knows exactly what the checks so far remember. */
  lemma {:induction false} MarksAfter(start: State, checks: seq<Check>, generation: int, key: Key, second: int,
                                      window: int)
    requires start.alerts == map[] && forall m | 0 <= m < |checks| :: DistinctKeys(checks[m].items)
    ensures Marks(After(start, checks), generation, key, second, window) <==>
      Remembers(checks, generation, key, second, window)
    decreases |checks|
  {
    hide Held, Entered, Next, DistinctKeys;
    if checks != [] {
      var n := |checks| - 1;
      MarksAfter(start, checks[..n], generation, key, second, window);
      MarksNext(After(start, checks[..n]), checks[n], generation, key, second, window);
      RemembersSnoc(checks, generation, key, second, window);
    }
  }

  lemma RemembersSnoc(checks: seq<Check>, generation: int, key: Key, second: int, window: int)
    requires checks != []
    ensures var n := |checks| - 1;
      Remembers(checks, generation, key, second, window) <==>
        && Held(checks[n], generation, key, second)
        && (Entered(checks[n], generation, key, second, window)
            || (window > 0 && Remembers(checks[..n], generation, key, second, window)))
  {
    hide Held;
    var n := |checks| - 1;
    if Remembers(checks, generation, key, second, window) {
      var j :| 0 <= j < |checks| && Entered(checks[j], generation, key, second, window)
        && forall m | j <= m < |checks| :: Held(checks[m], generation, key, second);
      if j < n { assert checks[..n][j] == checks[j]; }
      assert j <= n < |checks|;
    }
    var held := Held(checks[n], generation, key, second);
    if window > 0 && Remembers(checks[..n], generation, key, second, window) && held {
      var j :| 0 <= j < n && Entered(checks[..n][j], generation, key, second, window)
        && forall m | j <= m < n :: Held(checks[..n][m], generation, key, second);
      forall m | j <= m < |checks| ensures Held(checks[m], generation, key, second) {
        if m < n { assert checks[..n][m] == checks[m]; }
      }
      assert checks[j] == checks[..n][j];
    }
  }

  /** The warnings of one check of a run. */
  function WarningsAt(start: State, checks: seq<Check>, i: nat): seq<Warning>
    requires i < |checks|
  {
    Warnings(After(start, checks[..i]), checks[i].generation, checks[i].items, checks[i].windows, checks[i].now,
        DescendingUnique(checks[i].windows))
  }

  /** In every run from an empty state, a check warns of an item for a window if and only if
      it is the tightest window the item is inside, and no earlier check has found the item
      inside it and every one since has seen the item unchanged and inside some window. */
  lemma WarnedIff(start: State, checks: seq<Check>, i: nat, item: Item, window: int)
    requires start.alerts == map[] && i < |checks| && item in checks[i].items
    requires forall m | 0 <= m < |checks| :: DistinctKeys(checks[m].items)
    ensures (exists w | w in WarningsAt(start, checks, i) :: w.window == window && item in w.items) <==>
      && Within(checks[i], item, window)
      && (forall v | v in checks[i].windows && Within(checks[i], item, v) :: window <= v)
      && !Remembers(checks[..i], checks[i].generation, item.key, item.expires / 1_000_000_000, window)
  {
    hide Within, Remembers, Inside, Remembered, DescendingUnique, DistinctKeys, Marks;
    var (check, s) := (checks[i], After(start, checks[..i]));
    MarksAfter(start, checks[..i], check.generation, item.key, item.expires / 1_000_000_000, window);
    RememberedIff(s, check, item, window);
    WarnedOnce(s, check, item, window, WarningsAt(start, checks, i));
    TightestIff(check, item, window);
  }

  lemma TightestIff(check: Check, item: Item, window: int)
    ensures var inside := Inside(check.windows, item, check.now);
      inside != [] && window == inside[|inside| - 1] <==>
        && Within(check, item, window)
        && forall v | v in check.windows && Within(check, item, v) :: window <= v
  {
    hide Within, Inside, DescendingUnique;
    var inside := Inside(check.windows, item, check.now);
    forall v ensures v in inside <==> Within(check, item, v) { WithinIff(check, item, v); }
    forall v | Within(check, item, v) ensures v in check.windows { WindowListed(check, item, v); }
    if inside != [] {
      assert inside[|inside| - 1] in inside;
      TightestIsLeast(check.windows, item, check.now);
    }
  }

  lemma WarnedOnce(s: State, check: Check, item: Item, window: int, r: seq<Warning>)
    requires item in check.items
    requires r == Warnings(s, check.generation, check.items, check.windows, check.now, DescendingUnique(check.windows))
    ensures var inside := Inside(check.windows, item, check.now);
      (exists w | w in r :: w.window == window && item in w.items) <==>
        && inside != [] && window == inside[|inside| - 1] && window !in Remembered(s, check.generation, item)
  {
    hide Inside, Remembered, DescendingUnique, Warnings;
    if Inside(check.windows, item, check.now) != [] {
      WarnedExactlyOnce(s, check.generation, check.items, check.windows, check.now, item);
    } else {
      NotWarned(s, check, item);
    }
  }

  lemma NotWarned(s: State, check: Check, item: Item)
    requires Inside(check.windows, item, check.now) == []
    ensures forall w | w in Warnings(s, check.generation, check.items, check.windows, check.now,
                                     DescendingUnique(check.windows)) :: item !in w.items
  {
    hide Inside, DescendingUnique, Warnings, SortedItems, Remembered;
    WarningsShape(s, check.generation, check.items, check.windows, check.now, DescendingUnique(check.windows));
    var r := Warnings(s, check.generation, check.items, check.windows, check.now, DescendingUnique(check.windows));
    forall k | 0 <= k < |r| ensures item !in r[k].items {
      SortedInOrder(Group(s, check.generation, check.items, check.windows, check.now, r[k].window));
    }
  }

  /** The warnings of a check come largest window first, none of them empty; inside one the
      items come by expiry, then auth keys before devices, then by ID. */
  lemma WarningsSorted(start: State, checks: seq<Check>, i: nat)
    requires i < |checks|
    ensures var r := WarningsAt(start, checks, i);
      && (forall k | 0 <= k < |r| :: r[k].items != [])
      && (forall k, l | 0 <= k < l < |r| :: r[k].window > r[l].window)
      && forall k, a, b | 0 <= k < |r| && 0 <= a < b < |r[k].items| ::
           var (x, y) := (r[k].items[a], r[k].items[b]);
           && x.expires <= y.expires
           && (x.expires == y.expires && x.key.kind != y.key.kind ==> x.key.kind == AuthKey)
           && (x.expires == y.expires && x.key.kind == y.key.kind ==> Json.AtMost(x.key.id, y.key.id))
  {
    hide DescendingUnique, Warnings, SortedItems, Json.AtMost, After, Group;
    var (check, s) := (checks[i], After(start, checks[..i]));
    var r := WarningsAt(start, checks, i);
    DescendingUniqueOrder(check.windows);
    NoneEmpty(s, check, DescendingUnique(check.windows));
    WarningsShape(s, check.generation, check.items, check.windows, check.now, DescendingUnique(check.windows));
    forall k | 0 <= k < |r| ensures InOrder(r[k].items) {
      SortedInOrder(Group(s, check.generation, check.items, check.windows, check.now, r[k].window));
    }
  }

  lemma {:induction false} NoneEmpty(s: State, check: Check, listed: seq<int>)
    ensures var r := Warnings(s, check.generation, check.items, check.windows, check.now, listed);
      forall w | w in r :: w.items != []
    decreases |listed|
  {
    hide Group, SortedItems;
    if listed != [] {
      var n := |listed| - 1;
      NoneEmpty(s, check, listed[..n]);
      SortedInOrder(Group(s, check.generation, check.items, check.windows, check.now, listed[n]));
    }
  }

  lemma DescendingUniqueOrder(windows: seq<int>)
    ensures var r := DescendingUnique(windows);
      forall i, j | 0 <= i < j < |r| :: r[i] > r[j]
  {
    hide TopIds;
  }
}
