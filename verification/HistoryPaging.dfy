/** What a page contains, and what following its cursors reaches. */
module HistoryPaging {
  import opened Sets
  import opened History

  ghost predicate Descending(s: seq<int>) {
    forall i, j | 0 <= i < j < |s| :: s[i] > s[j]
  }

  lemma {:induction false} ShowingDescends(cat: Catalog, s: seq<int>)
    requires Descending(s)
    ensures Descending(Showing(cat, s))
    decreases |s|
  {
    if s != [] {
      ShowingDescends(cat, s[1..]);
      var rest := Showing(cat, s[1..]);
      forall i | 0 <= i < |rest| ensures s[0] > rest[i] {
        assert rest[i] in s[1..];
        var j :| 0 <= j < |s[1..]| && s[1..][j] == rest[i];
        assert s[j + 1] == rest[i];
      }
    }
  }

  lemma {:induction false} ShowingAscends(cat: Catalog, s: seq<int>)
    requires Ascending(s)
    ensures Ascending(Showing(cat, s))
    decreases |s|
  {
    if s != [] {
      ShowingAscends(cat, s[1..]);
      var rest := Showing(cat, s[1..]);
      forall i | 0 <= i < |rest| ensures s[0] < rest[i] {
        assert rest[i] in s[1..];
        var j :| 0 <= j < |s[1..]| && s[1..][j] == rest[i];
        assert s[j + 1] == rest[i];
      }
    }
  }

  /** What was read stays within the budget, and the batch that was refused would not
      have stayed within it. */
  lemma {:induction false} FitIsExact(cat: Catalog, s: seq<int>, budget: nat, read: nat)
    requires budget > 0 ==> read <= budget
    ensures var k := Fit(cat, s, budget, read);
      var total := read + Charge(cat, Showing(cat, s[..k]));
      && (budget > 0 ==> total <= budget)
      && (k < |s| ==> budget > 0 && total + cat.cost(s[k]) > budget)
    decreases |s|
  {
    var k := Fit(cat, s, budget, read);
    if k > 0 {
      var next := if cat.shows(s[0]) then read + cat.cost(s[0]) else read;
      FitIsExact(cat, s[1..], budget, next);
      assert s[..k][1..] == s[1..][..k - 1];
      ChargeCons(cat, s[0], Showing(cat, s[1..][..k - 1]));
    }
  }

  lemma ChargeCons(cat: Catalog, id: int, rest: seq<int>)
    ensures Charge(cat, [id] + rest) == cat.cost(id) + Charge(cat, rest) && Charge(cat, [] + rest) == Charge(cat, rest)
  {
    assert ([id] + rest)[1..] == rest && [] + rest == rest;
  }

  lemma TopPrefix(s: set<int>, n: nat, k: nat)
    requires k < |TopIds(s, n)|
    ensures forall id | id in s && id > TopIds(s, n)[k] :: id in TopIds(s, n)[..k]
  {
    hide TopIds;
    var r := TopIds(s, n);
    forall id | id in s && id > r[k] ensures id in r[..k] {
      var j :| 0 <= j < |r| && r[j] == id;
      assert r[..k][j] == id;
    }
  }

  lemma FirstPrefix(s: set<int>, n: nat, k: nat)
    requires k < |FirstIds(s, n)|
    ensures forall id | id in s && id < FirstIds(s, n)[k] :: id in FirstIds(s, n)[..k]
  {
    hide FirstIds;
    var r := FirstIds(s, n);
    forall id | id in s && id < r[k] ensures id in r[..k] {
      var j :| 0 <= j < |r| && r[j] == id;
      assert r[..k][j] == id;
    }
  }

  lemma TopFirst(s: set<int>, n: nat)
    requires TopIds(s, n) != []
    ensures forall id | id in s :: id <= TopIds(s, n)[0]
  {
    hide TopIds;
    TopPrefix(s, n, 0);
  }

  lemma FirstFirst(s: set<int>, n: nat)
    requires FirstIds(s, n) != []
    ensures forall id | id in s :: id >= FirstIds(s, n)[0]
  {
    hide FirstIds;
    FirstPrefix(s, n, 0);
  }

  // ---------------------------------------------------------------- below a cursor

  /** `low` separates the rows below the cursor that the page examined from the others. */
  ghost predicate OlderSplit(cat: Catalog, cursor: int, examined: seq<int>, low: int) {
    forall id | id in Below(cat, cursor) :: id in examined <==> id >= low
  }

  lemma BelowIn(cat: Catalog, cursor: int, id: int)
    requires id in Below(cat, cursor)
    ensures id in cat.ids
  {
  }

  lemma ExaminedBelowRun(cat: Catalog, cursor: int, limit: nat, budget: nat)
    requires limit > 0
    ensures var examined := ExaminedBelow(cat, cursor, limit, budget);
      && Descending(examined) && |examined| <= limit
      && (forall id | id in examined :: id in Below(cat, cursor))
      && (forall id, e | id in Below(cat, cursor) && e in examined && id > e :: id in examined)
  {
    hide Fit, Below;
    var fetched := TopIds(Below(cat, cursor), limit + 1);
    var examined := ExaminedBelow(cat, cursor, limit, budget);
    assert examined == fetched[..|examined|];
    forall id, e | id in Below(cat, cursor) && e in examined && id > e ensures id in examined {
      var i :| 0 <= i < |examined| && examined[i] == e;
      assert fetched[i] == e;
      var j :| 0 <= j < |fetched| && fetched[j] == id;
    }
  }

  lemma HasNextIsExact(cat: Catalog, cursor: int, limit: nat, budget: nat)
    requires limit > 0
    ensures PageBelow(cat, cursor, limit, budget).hasNext <==>
      exists id :: id in Below(cat, cursor) && id !in ExaminedBelow(cat, cursor, limit, budget)
  {
    hide Fit, Below, Showing, Charge, Above;
    var fetched := TopIds(Below(cat, cursor), limit + 1);
    var examined := ExaminedBelow(cat, cursor, limit, budget);
    if PageBelow(cat, cursor, limit, budget).hasNext {
      assert |examined| < |fetched|;
      assert fetched[|examined|] in Below(cat, cursor) && fetched[|examined|] !in examined;
    } else {
      assert examined == fetched;
    }
  }

  /** A page below a cursor is the highest-id run of matching batches under it: there is
      a border such that the page shows every shown batch from the border up and none
      under it, newest first, within the count and byte budgets; and `hasNext` says
      exactly whether a matching batch is left under the border. */
  lemma OlderPageIsTopRun(cat: Catalog, cursor: int, limit: nat, budget: nat) returns (low: int)
    requires limit > 0
    ensures var page := PageBelow(cat, cursor, limit, budget);
      && (forall id :: id in page.batches <==> id in Below(cat, cursor) && cat.shows(id) && id >= low)
      && (page.hasNext <==> exists id :: id in Below(cat, cursor) && id < low)
      && Descending(page.batches) && |page.batches| <= limit
      && page.bytesRead == Charge(cat, page.batches) && (budget > 0 ==> page.bytesRead <= budget)
      && page.batches == Showing(cat, ExaminedBelow(cat, cursor, limit, budget))
    ensures OlderSplit(cat, cursor, ExaminedBelow(cat, cursor, limit, budget), low)
    ensures ExaminedBelow(cat, cursor, limit, budget) != []
        ==> low == ExaminedBelow(cat, cursor, limit, budget)[|ExaminedBelow(cat, cursor, limit, budget)| - 1]
  {
    hide Fit, Charge, Below, Above, Showing, TopIds;
    var examined := ExaminedBelow(cat, cursor, limit, budget);
    var below := Below(cat, cursor);
    ExaminedBelowRun(cat, cursor, limit, budget);
    HasNextIsExact(cat, cursor, limit, budget);
    ShowingDescends(cat, examined);
    FitIsExact(cat, Cut(TopIds(below, limit + 1), limit), budget, 0);
    if examined != [] {
      low := examined[|examined| - 1];
      assert low in examined;
      forall id | id in below ensures id in examined <==> id >= low {
        if id in examined { var i :| 0 <= i < |examined| && examined[i] == id; }
      }
    } else if below != {} {
      low := Greatest(below) + 1;
    } else {
      low := 0;
    }
  }

  /** `hasPrev` says exactly whether a matching batch is newer than the page. */
  lemma OlderPageHasPrev(cat: Catalog, cursor: int, limit: nat, budget: nat)
    ensures var page := PageBelow(cat, cursor, limit, budget);
      var newest := if page.batches != [] then page.batches[0] else cursor - 1;
      && (page.hasPrev <==> cursor > 0 && exists id :: id in cat.ids && id > newest)
      && (page.hasPrev ==> page.prevCursor == newest)
  {
    hide Fit, Showing, Charge, TopIds, Below;
    var page := PageBelow(cat, cursor, limit, budget);
    var newest := if page.batches != [] then page.batches[0] else cursor - 1;
    assert Above(cat, newest) != {} ==> Pick(Above(cat, newest)) in cat.ids;
    if id :| id in cat.ids && id > newest { assert id in Above(cat, newest); }
  }

  /** No batch alone exceeds the byte budget. */
  ghost predicate Affordable(cat: Catalog, budget: nat) {
    budget == 0 || forall id | id in cat.ids :: cat.cost(id) <= budget
  }

  lemma ReadSomething(cat: Catalog, s: seq<int>, budget: nat)
    requires s != [] && (budget == 0 || cat.cost(s[0]) <= budget)
    ensures Fit(cat, s, budget, 0) > 0
  {
  }

  /** A batch that alone exceeds the byte budget. */
  predicate Oversized(cat: Catalog, budget: nat, id: int) {
    budget > 0 && cat.cost(id) > budget
  }

  /** The next cursor of a page that shows something, or was not cut short, is a matching
      batch under the old cursor; what the page did not show is under it and what it
      showed is not. */
  lemma OlderAdvances(cat: Catalog, cursor: int, limit: nat, budget: nat)
    requires limit > 0
    requires var page := PageBelow(cat, cursor, limit, budget); page.hasNext && (page.batches != [] || !page.truncated)
    ensures var page := PageBelow(cat, cursor, limit, budget);
      && page.nextCursor in Below(cat, cursor)
      && (forall id | id in Below(cat, cursor) && cat.shows(id) :: id in page.batches <==> id >= page.nextCursor)
  {
    hide Fit, Charge, Showing, Above, TopIds;
    var low := OlderPageIsTopRun(cat, cursor, limit, budget);
    var page := PageBelow(cat, cursor, limit, budget);
    ExaminedBelowRun(cat, cursor, limit, budget);
    HasNextIsExact(cat, cursor, limit, budget);
    var examined := ExaminedBelow(cat, cursor, limit, budget);
    assert examined != [] && low in examined;
    if page.batches != [] {
      var last := page.batches[|page.batches| - 1];
      assert last in page.batches;
      forall id | id in page.batches ensures id >= last { var i :| 0 <= i < |page.batches| && page.batches[i] == id; }
    } else {
      var fetched := TopIds(Below(cat, cursor), limit + 1);
      assert forall k | 0 <= k < |examined| :: examined[k] == fetched[k] && fetched[k] in fetched;
    }
  }

  /** A page that shows nothing because it was cut short stands at a batch that alone
      exceeds the budget, with nothing to show above it. */
  lemma OlderStuck(cat: Catalog, cursor: int, limit: nat, budget: nat) returns (at: int)
    requires limit > 0
    requires var page := PageBelow(cat, cursor, limit, budget); page.batches == [] && page.truncated
    ensures at in Below(cat, cursor) && Oversized(cat, budget, at)
    ensures forall id | id in Below(cat, cursor) && cat.shows(id) :: id <= at
  {
    hide Fit, Charge, Showing, Above, Below, TopIds;
    var fetched := TopIds(Below(cat, cursor), limit + 1);
    var candidates := Cut(fetched, limit);
    var examined := ExaminedBelow(cat, cursor, limit, budget);
    FitIsExact(cat, candidates, budget, 0);
    NothingRead(cat);
    at := candidates[|examined|];
    assert at == fetched[|examined|] && at in fetched;
    assert examined == fetched[..|examined|];
    TopPrefix(Below(cat, cursor), limit + 1, |examined|);
  }

  lemma AffordableAdvances(cat: Catalog, cursor: int, limit: nat, budget: nat)
    requires limit > 0 && Affordable(cat, budget)
    ensures var page := PageBelow(cat, cursor, limit, budget); page.batches != [] || !page.truncated
  {
    hide PageBelow;
    var page := PageBelow(cat, cursor, limit, budget);
    if page.batches == [] && page.truncated { var at := OlderStuck(cat, cursor, limit, budget); }
  }

  /** Until one batch alone exceeds the budget, every cursor advances. */
  lemma OlderCursorAdvances(cat: Catalog, cursor: int, limit: nat, budget: nat)
    requires limit > 0 && Affordable(cat, budget)
    requires PageBelow(cat, cursor, limit, budget).hasNext
    ensures var page := PageBelow(cat, cursor, limit, budget);
      && page.nextCursor in Below(cat, cursor)
      && (forall id | id in Below(cat, cursor) && cat.shows(id) :: id in page.batches <==> id >= page.nextCursor)
  {
    hide PageBelow, Affordable;
    AffordableAdvances(cat, cursor, limit, budget);
    OlderAdvances(cat, cursor, limit, budget);
  }

  /** Every page from a cursor down, joined. */
  ghost function FollowOlder(cat: Catalog, cursor: int, limit: nat, budget: nat): seq<int>
    requires limit > 0 && Affordable(cat, budget) && Positive(cat)
    decreases |Below(cat, cursor)|
  {
    var page := PageBelow(cat, cursor, limit, budget);
    if !page.hasNext then page.batches
    else
      OlderCursorAdvances(cat, cursor, limit, budget);
      BelowShrinks(cat, cursor, page.nextCursor);
      page.batches + FollowOlder(cat, page.nextCursor, limit, budget)
  }

  lemma BelowShrinks(cat: Catalog, cursor: int, next: int)
    requires Positive(cat) && next in Below(cat, cursor)
    ensures next > 0 && |Below(cat, next)| < |Below(cat, cursor)|
  {
    var a, b := Below(cat, next), Below(cat, cursor);
    assert a <= b - {next};
    assert |a| + |b - {next} - a| == |b - {next}| by { assert b - {next} == a + (b - {next} - a); }
  }

  /** Following the next cursor reaches every shown batch exactly once, newest first. */
  lemma {:induction false} FollowOlderCoversAll(cat: Catalog, cursor: int, limit: nat, budget: nat)
    requires limit > 0 && Affordable(cat, budget) && Positive(cat)
    ensures Descending(FollowOlder(cat, cursor, limit, budget))
    ensures forall id :: id in FollowOlder(cat, cursor, limit, budget) <==> id in Below(cat, cursor) && cat.shows(id)
    decreases |Below(cat, cursor)|
  {
    hide PageBelow;
    var page := PageBelow(cat, cursor, limit, budget);
    var low := OlderPageIsTopRun(cat, cursor, limit, budget);
    if page.hasNext {
      OlderCursorAdvances(cat, cursor, limit, budget);
      BelowShrinks(cat, cursor, page.nextCursor);
      FollowOlderCoversAll(cat, page.nextCursor, limit, budget);
      var rest := FollowOlder(cat, page.nextCursor, limit, budget);
      forall i, j | 0 <= i < |page.batches| && 0 <= j < |rest| ensures page.batches[i] > rest[j] {
        assert page.batches[i] in page.batches && rest[j] in rest;
      }
    }
  }

  // ---------------------------------------------------------------- above a cursor

  lemma ExaminedAboveRun(cat: Catalog, after: int, limit: nat, budget: nat)
    requires limit > 0
    ensures var examined := ExaminedAbove(cat, after, limit, budget);
      && Ascending(examined) && |examined| <= limit
      && (forall id | id in examined :: id in Above(cat, after))
      && (forall id, e | id in Above(cat, after) && e in examined && id < e :: id in examined)
  {
    hide Fit, Above;
    var fetched := FirstIds(Above(cat, after), limit + 1);
    var examined := ExaminedAbove(cat, after, limit, budget);
    assert examined == fetched[..|examined|];
    forall id, e | id in Above(cat, after) && e in examined && id < e ensures id in examined {
      var i :| 0 <= i < |examined| && examined[i] == e;
      assert fetched[i] == e;
      var j :| 0 <= j < |fetched| && fetched[j] == id;
    }
  }

  lemma HasPrevIsExact(cat: Catalog, after: int, limit: nat, budget: nat)
    requires limit > 0
    ensures PageAbove(cat, after, limit, budget).hasPrev <==>
      exists id :: id in Above(cat, after) && id !in ExaminedAbove(cat, after, limit, budget)
  {
    hide Fit, Showing, Charge, Above;
    var fetched := FirstIds(Above(cat, after), limit + 1);
    var examined := ExaminedAbove(cat, after, limit, budget);
    if PageAbove(cat, after, limit, budget).hasPrev {
      assert |examined| < |fetched|;
      assert fetched[|examined|] in Above(cat, after) && fetched[|examined|] !in examined;
    } else {
      assert examined == fetched;
    }
  }

  ghost predicate NewerSplit(cat: Catalog, after: int, examined: seq<int>, high: int) {
    forall id | id in Above(cat, after) :: id in examined <==> id <= high
  }

  /** A page above a cursor is the lowest-id run of matching batches over it, shown
      newest first; `hasPrev` and `hasNext` are exact. */
  lemma NewerPageIsBottomRun(cat: Catalog, after: int, limit: nat, budget: nat) returns (high: int)
    requires limit > 0
    ensures var page := PageAbove(cat, after, limit, budget);
      && (forall id :: id in page.batches <==> id in Above(cat, after) && cat.shows(id) && id <= high)
      && (page.hasPrev <==> exists id :: id in Above(cat, after) && id > high)
      && Descending(page.batches) && |page.batches| <= limit
      && (budget > 0 ==> page.bytesRead <= budget)
      && page.batches == Reversed(Showing(cat, ExaminedAbove(cat, after, limit, budget)))
    ensures NewerSplit(cat, after, ExaminedAbove(cat, after, limit, budget), high)
    ensures ExaminedAbove(cat, after, limit, budget) != []
        ==> high == ExaminedAbove(cat, after, limit, budget)[|ExaminedAbove(cat, after, limit, budget)| - 1]
  {
    hide Fit, Charge, Above, Showing;
    var examined := ExaminedAbove(cat, after, limit, budget);
    var above := Above(cat, after);
    ExaminedAboveRun(cat, after, limit, budget);
    HasPrevIsExact(cat, after, limit, budget);
    ShowingAscends(cat, examined);
    ReversedSame(Showing(cat, examined));
    FitIsExact(cat, Cut(FirstIds(above, limit + 1), limit), budget, 0);
    if examined != [] {
      high := examined[|examined| - 1];
      assert high in examined;
      forall id | id in above ensures id in examined <==> id <= high {
        if id in examined { var i :| 0 <= i < |examined| && examined[i] == id; }
      }
    } else if above != {} {
      high := Least(above) - 1;
    } else {
      high := 0;
    }
  }

  lemma ReversedSame(s: seq<int>)
    ensures forall id :: id in Reversed(s) <==> id in s
    ensures Ascending(s) ==> Descending(Reversed(s))
  {
    forall id | id in s ensures id in Reversed(s) {
      var i :| 0 <= i < |s| && s[i] == id;
      assert Reversed(s)[|s| - 1 - i] == id;
    }
  }

  lemma NewerPageHasNext(cat: Catalog, after: int, limit: nat, budget: nat)
    ensures var page := PageAbove(cat, after, limit, budget);
      var oldest := if page.batches != [] then page.batches[|page.batches| - 1] else after + 1;
      && (page.hasNext <==> exists id :: id in cat.ids && id < oldest)
      && (page.hasNext ==> page.nextCursor == oldest)
  {
    hide Fit, Showing, Charge, FirstIds, Above;
    var page := PageAbove(cat, after, limit, budget);
    var oldest := if page.batches != [] then page.batches[|page.batches| - 1] else after + 1;
    var older := set id | id in cat.ids && id < oldest;
    assert older != {} ==> Pick(older) in cat.ids;
    if id :| id in cat.ids && id < oldest { assert id in older; }
  }

  lemma NewerAdvances(cat: Catalog, after: int, limit: nat, budget: nat)
    requires limit > 0
    requires var page := PageAbove(cat, after, limit, budget); page.hasPrev && (page.batches != [] || !page.truncated)
    ensures var page := PageAbove(cat, after, limit, budget);
      && page.prevCursor in Above(cat, after)
      && (forall id | id in Above(cat, after) && cat.shows(id) :: id in page.batches <==> id <= page.prevCursor)
  {
    hide Fit, Charge, Showing, FirstIds;
    var high := NewerPageIsBottomRun(cat, after, limit, budget);
    var page := PageAbove(cat, after, limit, budget);
    ExaminedAboveRun(cat, after, limit, budget);
    HasPrevIsExact(cat, after, limit, budget);
    var examined := ExaminedAbove(cat, after, limit, budget);
    assert examined != [] && high in examined;
    if page.batches != [] {
      var newest := page.batches[0];
      assert newest in page.batches;
      forall id | id in page.batches ensures id <= newest { var i :| 0 <= i < |page.batches| && page.batches[i] == id; }
    } else {
      var fetched := FirstIds(Above(cat, after), limit + 1);
      assert forall k | 0 <= k < |examined| :: examined[k] == fetched[k] && fetched[k] in fetched;
    }
  }

  lemma NewerStuck(cat: Catalog, after: int, limit: nat, budget: nat) returns (at: int)
    requires limit > 0
    requires var page := PageAbove(cat, after, limit, budget); page.batches == [] && page.truncated
    ensures at in Above(cat, after) && Oversized(cat, budget, at)
    ensures forall id | id in Above(cat, after) && cat.shows(id) :: id >= at
  {
    hide Fit, Charge, Showing, Above, FirstIds;
    var fetched := FirstIds(Above(cat, after), limit + 1);
    var candidates := Cut(fetched, limit);
    var examined := ExaminedAbove(cat, after, limit, budget);
    FitIsExact(cat, candidates, budget, 0);
    NothingRead(cat);
    assert Showing(cat, examined) == [];
    at := candidates[|examined|];
    assert at == fetched[|examined|] && at in fetched;
    assert examined == fetched[..|examined|];
    FirstPrefix(Above(cat, after), limit + 1, |examined|);
  }

  lemma NewerCursorAdvances(cat: Catalog, after: int, limit: nat, budget: nat)
    requires limit > 0 && Affordable(cat, budget)
    requires PageAbove(cat, after, limit, budget).hasPrev
    ensures var page := PageAbove(cat, after, limit, budget);
      && page.prevCursor in Above(cat, after)
      && (forall id | id in Above(cat, after) && cat.shows(id) :: id in page.batches <==> id <= page.prevCursor)
  {
    hide PageAbove;
    var page := PageAbove(cat, after, limit, budget);
    if page.batches == [] && page.truncated { var at := NewerStuck(cat, after, limit, budget); }
    NewerAdvances(cat, after, limit, budget);
  }

  ghost function FollowNewer(cat: Catalog, after: int, limit: nat, budget: nat): seq<int>
    requires limit > 0 && Affordable(cat, budget)
    decreases |Above(cat, after)|
  {
    var page := PageAbove(cat, after, limit, budget);
    if !page.hasPrev then page.batches
    else
      NewerCursorAdvances(cat, after, limit, budget);
      AboveShrinks(cat, after, page.prevCursor);
      FollowNewer(cat, page.prevCursor, limit, budget) + page.batches
  }

  lemma AboveShrinks(cat: Catalog, after: int, next: int)
    requires next in Above(cat, after)
    ensures |Above(cat, next)| < |Above(cat, after)|
  {
    var a, b := Above(cat, next), Above(cat, after);
    assert a <= b - {next};
    assert |a| + |b - {next} - a| == |b - {next}| by { assert b - {next} == a + (b - {next} - a); }
  }

  /** Following the previous cursor reaches every newer shown batch exactly once. */
  lemma {:induction false} FollowNewerCoversAll(cat: Catalog, after: int, limit: nat, budget: nat)
    requires limit > 0 && Affordable(cat, budget)
    ensures Descending(FollowNewer(cat, after, limit, budget))
    ensures forall id :: id in FollowNewer(cat, after, limit, budget) <==> id in Above(cat, after) && cat.shows(id)
    decreases |Above(cat, after)|
  {
    hide PageAbove;
    var page := PageAbove(cat, after, limit, budget);
    var high := NewerPageIsBottomRun(cat, after, limit, budget);
    if page.hasPrev {
      NewerCursorAdvances(cat, after, limit, budget);
      AboveShrinks(cat, after, page.prevCursor);
      FollowNewerCoversAll(cat, page.prevCursor, limit, budget);
      var rest := FollowNewer(cat, page.prevCursor, limit, budget);
      forall i, j | 0 <= i < |rest| && 0 <= j < |page.batches| ensures rest[i] > page.batches[j] {
        assert page.batches[j] in page.batches && rest[i] in rest;
      }
    }
  }

  // ---------------------------------------------------------------- a request

  /** How many batches a request asks for at most: 20 unless it says otherwise, never more
      than 100. */
  function Asked(limit: int): nat {
    if limit <= 0 then 20 else if limit > 100 then 100 else limit
  }

  /** The examined batches end where the budget does. */
  lemma OlderStopsAt(cat: Catalog, cursor: int, limit: nat, budget: nat, low: int)
    requires limit > 0 && OlderSplit(cat, cursor, ExaminedBelow(cat, cursor, limit, budget), low)
    requires PageBelow(cat, cursor, limit, budget).truncated
    ensures var rest := set id | id in Below(cat, cursor) && id < low;
      rest != {} && cat.cost(Greatest(rest)) > budget - PageBelow(cat, cursor, limit, budget).bytesRead
  {
    hide Fit, Showing, Charge, Above, Below, TopIds;
    var examined, fetched := ExaminedBelow(cat, cursor, limit, budget), TopIds(Below(cat, cursor), limit + 1);
    var candidates := Cut(fetched, limit);
    FitIsExact(cat, candidates, budget, 0);
    TopPrefix(Below(cat, cursor), limit + 1, |examined|);
    var next, rest := candidates[|examined|], set id | id in Below(cat, cursor) && id < low;
    assert next == fetched[|examined|] && next in fetched && examined == fetched[..|examined|] && next !in examined;
    assert next in rest && forall id | id in rest :: id <= next;
    assert Greatest(rest) == next;
  }

  lemma NewerStopsAt(cat: Catalog, after: int, limit: nat, budget: nat, high: int)
    requires limit > 0 && NewerSplit(cat, after, ExaminedAbove(cat, after, limit, budget), high)
    requires PageAbove(cat, after, limit, budget).truncated
    ensures var rest := set id | id in Above(cat, after) && id > high;
      rest != {} && cat.cost(Least(rest)) > budget - PageAbove(cat, after, limit, budget).bytesRead
  {
    hide Fit, Showing, Charge, Above, FirstIds;
    var examined, fetched := ExaminedAbove(cat, after, limit, budget), FirstIds(Above(cat, after), limit + 1);
    var candidates := Cut(fetched, limit);
    FitIsExact(cat, candidates, budget, 0);
    FirstPrefix(Above(cat, after), limit + 1, |examined|);
    var next, rest := candidates[|examined|], set id | id in Above(cat, after) && id > high;
    assert next == fetched[|examined|] && next in fetched && examined == fetched[..|examined|] && next !in examined;
    assert next in rest && forall id | id in rest :: id >= next;
    assert Least(rest) == next;
  }

  /** A page that is not the last and was not cut short examined as many as it was asked for. */
  lemma OlderCounts(cat: Catalog, cursor: int, limit: nat, budget: nat, low: int)
    requires limit > 0 && OlderSplit(cat, cursor, ExaminedBelow(cat, cursor, limit, budget), low)
    requires PageBelow(cat, cursor, limit, budget).hasNext && !PageBelow(cat, cursor, limit, budget).truncated
    ensures |set id | id in Below(cat, cursor) && id >= low| == limit
  {
    hide Fit, Showing, Charge, Above, Below, TopIds;
    var examined := ExaminedBelow(cat, cursor, limit, budget);
    ExaminedBelowRun(cat, cursor, limit, budget);
    DistinctSize(examined);
    assert (set id | id in Below(cat, cursor) && id >= low) == (set id | id in examined);
  }

  lemma NewerCounts(cat: Catalog, after: int, limit: nat, budget: nat, high: int)
    requires limit > 0 && NewerSplit(cat, after, ExaminedAbove(cat, after, limit, budget), high)
    requires PageAbove(cat, after, limit, budget).hasPrev && !PageAbove(cat, after, limit, budget).truncated
    ensures |set id | id in Above(cat, after) && id <= high| == limit
  {
    hide Fit, Showing, Charge, Above, FirstIds;
    var examined := ExaminedAbove(cat, after, limit, budget);
    ExaminedAboveRun(cat, after, limit, budget);
    DistinctSize(examined);
    assert (set id | id in Above(cat, after) && id <= high) == (set id | id in examined);
  }

  /** The batches a request is about: those below its older cursor, or of all when it has
      none; with a newer cursor alone, those above that. */
  function Range(cat: Catalog, cursor: int, after: int): set<int> {
    set id | id in cat.ids && if cursor <= 0 && after > 0 then id > after else cursor > 0 ==> id < cursor
  }

  /** What a request is answered with: one end of its range, up to a border. With a newer
      cursor alone it is the lowest end, otherwise the highest. The page shows every shown
      batch up to the border, newest first, and says exactly whether there is more beyond.
      It then examined as many batches as were asked for, or the next one beyond the border
      exceeds what is left of the byte budget. */
  lemma RequestIsRun(cat: Catalog, cursor: int, after: int, limit: int, budget: nat) returns (border: int)
    ensures var page, range := PageOf(cat, cursor, after, limit, budget), Range(cat, cursor, after);
      && (forall i, j | 0 <= i < j < |page.batches| :: page.batches[i] > page.batches[j])
      && (budget > 0 ==> page.bytesRead <= budget)
      && if cursor <= 0 && after > 0 then
           var rest := set id | id in range && id > border;
           && (forall id :: id in page.batches <==> id in range && cat.shows(id) && id <= border)
           && (page.hasPrev <==> rest != {})
           && (page.hasPrev && !page.truncated ==> |set id | id in range && id <= border| == Asked(limit))
           && (page.truncated ==> rest != {} && cat.cost(Least(rest)) > budget - page.bytesRead)
         else
           var rest := set id | id in range && id < border;
           && (forall id :: id in page.batches <==> id in range && cat.shows(id) && id >= border)
           && (page.hasNext <==> rest != {})
           && (page.hasNext && !page.truncated ==> |set id | id in range && id >= border| == Asked(limit))
           && (page.truncated ==> rest != {} && cat.cost(Greatest(rest)) > budget - page.bytesRead)
  {
    hide PageBelow, PageAbove, ExaminedBelow, ExaminedAbove, Showing, OlderSplit, NewerSplit, Charge;
    var n := PageLimit(limit);
    if cursor <= 0 && after > 0 {
      assert Range(cat, cursor, after) == Above(cat, after);
      border := NewerPageIsBottomRun(cat, after, n, budget);
      var page, rest := PageAbove(cat, after, n, budget), set id | id in Above(cat, after) && id > border;
      if page.hasPrev { var id :| id in Above(cat, after) && id > border; assert id in rest; }
      if page.truncated {
        NewerStopsAt(cat, after, n, budget, border);
      } else if page.hasPrev {
        NewerCounts(cat, after, n, budget, border);
      }
    } else {
      assert Range(cat, cursor, after) == Below(cat, cursor);
      border := OlderPageIsTopRun(cat, cursor, n, budget);
      var page, rest := PageBelow(cat, cursor, n, budget), set id | id in Below(cat, cursor) && id < border;
      if page.hasNext { var id :| id in Below(cat, cursor) && id < border; assert id in rest; }
      if page.truncated {
        OlderStopsAt(cat, cursor, n, budget, border);
      } else if page.hasNext {
        OlderCounts(cat, cursor, n, budget, border);
      }
    }
  }

  // ---------------------------------------------------------------- what following cursors reaches

  /** The first n pages from a cursor down, joined. */
  function OlderPages(cat: Catalog, cursor: int, limit: nat, budget: nat, n: nat): seq<int>
    decreases n
  {
    if n == 0 then []
    else
      var page := PageBelow(cat, cursor, limit, budget);
      page.batches + if page.hasNext then OlderPages(cat, page.nextCursor, limit, budget, n - 1) else []
  }

  ghost predicate OlderCovered(cat: Catalog, cursor: int, limit: nat, budget: nat, n: nat) {
    forall id | id in Below(cat, cursor) && cat.shows(id) :: id in OlderPages(cat, cursor, limit, budget, n)
  }

  /** Every matching batch that alone exceeds the budget is older than all that is shown. */
  ghost predicate OlderAffordable(cat: Catalog, cursor: int, budget: nat) {
    forall x, y | x in Below(cat, cursor) && Oversized(cat, budget, x) && y in Below(cat, cursor) && cat.shows(y) ::
        x < y
  }

  lemma {:induction false} OlderReaches(cat: Catalog, cursor: int, limit: nat, budget: nat) returns (n: nat)
    requires limit > 0 && Positive(cat) && OlderAffordable(cat, cursor, budget)
    ensures OlderCovered(cat, cursor, limit, budget, n)
    decreases |Below(cat, cursor)|
  {
    hide PageBelow, Below, Oversized;
    var page := PageBelow(cat, cursor, limit, budget);
    var low := OlderPageIsTopRun(cat, cursor, limit, budget);
    n := 1;
    if page.batches == [] && page.truncated {
      var at := OlderStuck(cat, cursor, limit, budget);
    } else if page.hasNext {
      var next := page.nextCursor;
      OlderAdvances(cat, cursor, limit, budget);
      BelowShrinks(cat, cursor, next);
      BelowNext(cat, cursor, next);
      n := OlderReaches(cat, next, limit, budget);
      n := n + 1;
    }
  }

  lemma BelowNext(cat: Catalog, cursor: int, next: int)
    requires next > 0 && next in Below(cat, cursor)
    ensures forall id :: id in Below(cat, next) <==> id in Below(cat, cursor) && id < next
  {
  }

  /** Where a page that is not the last puts its cursor. */
  lemma OlderCursor(cat: Catalog, cursor: int, limit: nat, budget: nat)
    requires limit > 0 && PageBelow(cat, cursor, limit, budget).hasNext
    ensures var page, fetched := PageBelow(cat, cursor, limit, budget), TopIds(Below(cat, cursor), limit + 1);
      fetched != [] && (page.nextCursor in ExaminedBelow(cat, cursor, limit, budget)
          || page.nextCursor == fetched[0] + 1)
  {
    hide Showing, Fit, TopIds, Charge, Below, Above;
    var examined := ExaminedBelow(cat, cursor, limit, budget);
    var shown := Showing(cat, examined);
    assert shown != [] ==> shown[|shown| - 1] in shown;
  }

  lemma OlderBatches(cat: Catalog, cursor: int, limit: nat, budget: nat)
    ensures PageBelow(cat, cursor, limit, budget).batches == Showing(cat, ExaminedBelow(cat, cursor, limit, budget))
  {
    hide Showing, Fit, TopIds, Above;
  }

  /** A page never gets past a batch that alone exceeds the budget, and neither does its
      cursor. */
  lemma OlderPageStops(cat: Catalog, cursor: int, limit: nat, budget: nat, x: int)
    requires limit > 0 && Positive(cat) && x in Below(cat, cursor) && Oversized(cat, budget, x)
    ensures var page := PageBelow(cat, cursor, limit, budget);
      && (forall id | id in page.batches :: id > x)
      && (page.hasNext ==> x in Below(cat, page.nextCursor))
  {
    hide PageBelow, Showing, Fit, TopIds;
    var page := PageBelow(cat, cursor, limit, budget);
    var candidates := Cut(TopIds(Below(cat, cursor), limit + 1), limit);
    var examined := ExaminedBelow(cat, cursor, limit, budget);
    ExaminedBelowRun(cat, cursor, limit, budget);
    FitStops(cat, candidates, budget, 0);
    assert x !in examined;
    OlderBatches(cat, cursor, limit, budget);
    if page.hasNext {
      OlderCursor(cat, cursor, limit, budget);
      TopFirst(Below(cat, cursor), limit + 1);
    }
  }

  /** What is read holds nothing that alone exceeds the budget. */
  lemma {:induction false} FitStops(cat: Catalog, s: seq<int>, budget: nat, read: nat)
    ensures forall i | 0 <= i < Fit(cat, s, budget, read) :: !Oversized(cat, budget, s[i])
    decreases |s|
  {
    if Fit(cat, s, budget, read) > 0 {
      var next := if cat.shows(s[0]) then read + cat.cost(s[0]) else read;
      FitStops(cat, s[1..], budget, next);
      assert forall i | 1 <= i < Fit(cat, s, budget, read) :: s[i] == s[1..][i - 1];
    }
  }

  lemma {:induction false} OlderPagesStop(cat: Catalog, cursor: int, limit: nat, budget: nat, n: nat, x: int)
    requires limit > 0 && Positive(cat) && x in Below(cat, cursor) && Oversized(cat, budget, x)
    ensures forall id | id in OlderPages(cat, cursor, limit, budget, n) :: id > x
    decreases n
  {
    hide PageBelow, Below, Oversized;
    if n > 0 {
      var page := PageBelow(cat, cursor, limit, budget);
      OlderPageStops(cat, cursor, limit, budget, x);
      if page.hasNext { OlderPagesStop(cat, page.nextCursor, limit, budget, n - 1, x); }
    }
  }

  /** Following older cursors reaches every shown batch below a cursor if and only if every
      matching batch there that alone exceeds the budget is older than all shown ones. */
  lemma OlderCoversIff(cat: Catalog, cursor: int, limit: nat, budget: nat)
    requires limit > 0 && Positive(cat)
    ensures (exists n: nat :: OlderCovered(cat, cursor, limit, budget, n)) <==> OlderAffordable(cat, cursor, budget)
  {
    hide OlderPages, Below, Oversized;
    if OlderAffordable(cat, cursor, budget) {
      var n := OlderReaches(cat, cursor, limit, budget);
    }
    if n: nat :| OlderCovered(cat, cursor, limit, budget, n) {
      forall x, y | x in Below(cat, cursor) && Oversized(cat, budget, x) && y in Below(cat, cursor) && cat.shows(y)
        ensures x < y
      {
        OlderPagesStop(cat, cursor, limit, budget, n, x);
      }
    }
  }

  /** The first n pages up from a cursor, joined. */
  function NewerPages(cat: Catalog, after: int, limit: nat, budget: nat, n: nat): seq<int>
    decreases n
  {
    if n == 0 then []
    else
      var page := PageAbove(cat, after, limit, budget);
      (if page.hasPrev then NewerPages(cat, page.prevCursor, limit, budget, n - 1) else []) + page.batches
  }

  ghost predicate NewerCovered(cat: Catalog, after: int, limit: nat, budget: nat, n: nat) {
    forall id | id in Above(cat, after) && cat.shows(id) :: id in NewerPages(cat, after, limit, budget, n)
  }

  /** Every matching batch that alone exceeds the budget is newer than all that is shown. */
  ghost predicate NewerAffordable(cat: Catalog, after: int, budget: nat) {
    forall x, y | x in Above(cat, after) && Oversized(cat, budget, x) && y in Above(cat, after) && cat.shows(y) :: y < x
  }

  lemma {:induction false} NewerReaches(cat: Catalog, after: int, limit: nat, budget: nat) returns (n: nat)
    requires limit > 0 && NewerAffordable(cat, after, budget)
    ensures NewerCovered(cat, after, limit, budget, n)
    decreases |Above(cat, after)|
  {
    hide PageAbove, Above, Oversized;
    var page := PageAbove(cat, after, limit, budget);
    var high := NewerPageIsBottomRun(cat, after, limit, budget);
    n := 1;
    if page.batches == [] && page.truncated {
      var at := NewerStuck(cat, after, limit, budget);
    } else if page.hasPrev {
      var next := page.prevCursor;
      NewerAdvances(cat, after, limit, budget);
      AboveShrinks(cat, after, next);
      AboveNext(cat, after, next);
      n := NewerReaches(cat, next, limit, budget);
      n := n + 1;
    }
  }

  lemma AboveNext(cat: Catalog, after: int, next: int)
    requires next in Above(cat, after)
    ensures forall id :: id in Above(cat, next) <==> id in Above(cat, after) && id > next
  {
  }

  lemma NewerPageStops(cat: Catalog, after: int, limit: nat, budget: nat, x: int)
    requires limit > 0 && x in Above(cat, after) && Oversized(cat, budget, x)
    ensures var page := PageAbove(cat, after, limit, budget);
      && (forall id | id in page.batches :: id < x)
      && (page.hasPrev ==> x in Above(cat, page.prevCursor))
  {
    hide PageAbove, Showing, Fit, FirstIds;
    var page := PageAbove(cat, after, limit, budget);
    var candidates := Cut(FirstIds(Above(cat, after), limit + 1), limit);
    var examined := ExaminedAbove(cat, after, limit, budget);
    ExaminedAboveRun(cat, after, limit, budget);
    FitStops(cat, candidates, budget, 0);
    ReversedSame(Showing(cat, examined));
    assert x !in examined;
    assert page.batches == Reversed(Showing(cat, examined)) by { NewerBatches(cat, after, limit, budget); }
    if page.hasPrev {
      NewerCursor(cat, after, limit, budget);
      FirstFirst(Above(cat, after), limit + 1);
    }
  }

  lemma NewerBatches(cat: Catalog, after: int, limit: nat, budget: nat)
    ensures PageAbove(cat, after, limit, budget).batches ==
        Reversed(Showing(cat, ExaminedAbove(cat, after, limit, budget)))
  {
    hide Showing, Fit, FirstIds;
  }

  /** Where a page that is not the last puts its cursor. */
  lemma NewerCursor(cat: Catalog, after: int, limit: nat, budget: nat)
    requires limit > 0 && PageAbove(cat, after, limit, budget).hasPrev
    ensures var page, fetched := PageAbove(cat, after, limit, budget), FirstIds(Above(cat, after), limit + 1);
      fetched != [] && (page.prevCursor in ExaminedAbove(cat, after, limit, budget)
          || page.prevCursor == fetched[0] - 1)
  {
    hide Showing, Fit, FirstIds, Charge, Above;
    var examined := ExaminedAbove(cat, after, limit, budget);
    var loaded := Showing(cat, examined);
    assert loaded != [] ==> loaded[|loaded| - 1] in loaded;
  }

  lemma {:induction false} NewerPagesStop(cat: Catalog, after: int, limit: nat, budget: nat, n: nat, x: int)
    requires limit > 0 && x in Above(cat, after) && Oversized(cat, budget, x)
    ensures forall id | id in NewerPages(cat, after, limit, budget, n) :: id < x
    decreases n
  {
    hide PageAbove, Above, Oversized;
    if n > 0 {
      var page := PageAbove(cat, after, limit, budget);
      NewerPageStops(cat, after, limit, budget, x);
      if page.hasPrev { NewerPagesStop(cat, page.prevCursor, limit, budget, n - 1, x); }
    }
  }

  /** The same, mirrored: following newer cursors reaches every shown batch above a cursor
      if and only if every matching batch there that alone exceeds the budget is newer
      than all shown ones. */
  lemma NewerCoversIff(cat: Catalog, after: int, limit: nat, budget: nat)
    requires limit > 0
    ensures (exists n: nat :: NewerCovered(cat, after, limit, budget, n)) <==> NewerAffordable(cat, after, budget)
  {
    hide NewerPages, Above, Oversized;
    if NewerAffordable(cat, after, budget) {
      var n := NewerReaches(cat, after, limit, budget);
    }
    if n: nat :| NewerCovered(cat, after, limit, budget, n) {
      forall x, y | x in Above(cat, after) && Oversized(cat, budget, x) && y in Above(cat, after) && cat.shows(y)
        ensures y < x
      {
        NewerPagesStop(cat, after, limit, budget, n, x);
      }
    }
  }
}
