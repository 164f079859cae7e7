/** Two-way pagination of the history under a count and a byte budget.

    A filter on a fixed store decides three things per batch: whether the batch row
    matches, whether any of its events is shown, and how many bytes reading it is
    estimated to cost. Pagination sees nothing else.
 */
module History {
  import opened Sets

  datatype Catalog = Catalog(ids: set<int>, shows: int -> bool, cost: int -> nat)

  /** `batches` is newest first. A cursor is 0 when it is not set. */
  datatype Page = Page(batches: seq<int>, bytesRead: nat, truncated: bool,
                       hasNext: bool, nextCursor: int, hasPrev: bool, prevCursor: int)

  ghost predicate Positive(cat: Catalog) {
    forall id | id in cat.ids :: id > 0
  }

  /** Rows below a cursor; cursor 0 is no bound. */
  function Below(cat: Catalog, cursor: int): set<int> {
    set id | id in cat.ids && (cursor > 0 ==> id < cursor)
  }

  function Above(cat: Catalog, cursor: int): set<int> {
    set id | id in cat.ids && id > cursor
  }

  /** How many of the candidates are read before one would exceed what is left of the
      budget (0 is no budget). Only shown batches are charged. */
  function Fit(cat: Catalog, candidates: seq<int>, budget: nat, read: nat): (k: nat)
    ensures k <= |candidates|
  {
    if candidates == [] || (budget > 0 && cat.cost(candidates[0]) > budget - read) then 0
    else
      var next := if cat.shows(candidates[0]) then read + cat.cost(candidates[0]) else read;
      1 + Fit(cat, candidates[1..], budget, next)
  }

  function Showing(cat: Catalog, examined: seq<int>): (r: seq<int>)
    ensures forall id | id in r :: id in examined && cat.shows(id)
    ensures forall id | id in examined && cat.shows(id) :: id in r
    ensures |r| <= |examined|
  {
    if examined == [] then [] else (if cat.shows(examined[0]) then [examined[0]] else []) + Showing(cat, examined[1..])
  }

  function Charge(cat: Catalog, ids: seq<int>): nat {
    if ids == [] then 0 else cat.cost(ids[0]) + Charge(cat, ids[1..])
  }

  function Reversed(s: seq<int>): (r: seq<int>)
    ensures |r| == |s| && forall i | 0 <= i < |s| :: r[i] == s[|s| - 1 - i]
  {
    seq(|s|, i requires 0 <= i < |s| => s[|s| - 1 - i])
  }

  /** At most `limit` candidates, and whether there was one more. */
  function Cut(fetched: seq<int>, limit: nat): seq<int> {
    if |fetched| > limit then fetched[..limit] else fetched
  }

  /** The rows a page below a cursor examines, highest first. */
  function ExaminedBelow(cat: Catalog, cursor: int, limit: nat, budget: nat): seq<int> {
    var candidates := Cut(TopIds(Below(cat, cursor), limit + 1), limit);
    candidates[..Fit(cat, candidates, budget, 0)]
  }

  /** The rows a page above a cursor examines, lowest first. */
  function ExaminedAbove(cat: Catalog, cursor: int, limit: nat, budget: nat): seq<int> {
    var candidates := Cut(FirstIds(Above(cat, cursor), limit + 1), limit);
    candidates[..Fit(cat, candidates, budget, 0)]
  }

  function PageBelow(cat: Catalog, cursor: int, limit: nat, budget: nat): Page {
    var fetched := TopIds(Below(cat, cursor), limit + 1);
    var candidates := Cut(fetched, limit);
    var more := |fetched| > limit;
    var examined := candidates[..Fit(cat, candidates, budget, 0)];
    var truncated := |examined| < |candidates|;
    var batches := Showing(cat, examined);
    var hasNext := more || truncated;
    var next :=
      if hasNext && batches != [] then batches[|batches| - 1]
      else if truncated then candidates[0] + 1
      else if more && candidates != [] then candidates[|candidates| - 1]
      else 0;
    var newest := if batches != [] then batches[0] else cursor - 1;
    var hasPrev := cursor > 0 && Above(cat, newest) != {};
    Page(batches, Charge(cat, batches), truncated, hasNext, next, hasPrev, if hasPrev then newest else 0)
  }

  function PageAbove(cat: Catalog, after: int, limit: nat, budget: nat): Page {
    var fetched := FirstIds(Above(cat, after), limit + 1);
    var candidates := Cut(fetched, limit);
    var more := |fetched| > limit;
    var examined := candidates[..Fit(cat, candidates, budget, 0)];
    var truncated := |examined| < |candidates|;
    var loaded := Showing(cat, examined);
    var hasPrev := more || truncated;
    var prev :=
      if hasPrev && loaded != [] then loaded[|loaded| - 1]
      else if truncated then candidates[0] - 1
      else if more && candidates != [] then candidates[|candidates| - 1]
      else 0;
    var oldest := if loaded != [] then loaded[0] else after + 1;
    var hasNext := (set id | id in cat.ids && id < oldest) != {};
    Page(Reversed(loaded), Charge(cat, loaded), truncated, hasNext, if hasNext then oldest else 0, hasPrev, prev)
  }

  function PageLimit(limit: int): (r: nat)
    ensures 1 <= r <= 100
  {
    if limit <= 0 then 20 else if limit > 100 then 100 else limit
  }

  /** A page request: below `cursor` when it is set, else above `after` when that is set,
      else the newest page. */
  function PageOf(cat: Catalog, cursor: int, after: int, limit: int, budget: nat): Page {
    if cursor <= 0 && after > 0 then PageAbove(cat, after, PageLimit(limit), budget)
    else PageBelow(cat, cursor, PageLimit(limit), budget)
  }

  // ---------------------------------------------------------------- the loops

  /** Reversing the loaded batches in place, two ends at a time. */
  method ReverseBatches(batches: array<int>)
    modifies batches
    ensures batches[..] == Reversed(old(batches[..]))
  {
    var left, right := 0, batches.Length - 1;
    while left < right
      invariant 0 <= left <= batches.Length && right == batches.Length - 1 - left
      invariant forall k | 0 <= k < left ::
          batches[k] == old(batches[batches.Length - 1 - k]) && batches[batches.Length - 1 - k] == old(batches[k])
      invariant forall k | left <= k <= right :: batches[k] == old(batches[k])
    {
      batches[left], batches[right] := batches[right], batches[left];
      left, right := left + 1, right - 1;
    }
  }

  method NewestFirst(loaded: seq<int>) returns (batches: seq<int>)
    ensures batches == Reversed(loaded)
  {
    var a := new int[|loaded|](i requires 0 <= i < |loaded| => loaded[i]);
    assert a[..] == loaded;
    ReverseBatches(a);
    batches := a[..];
  }

  lemma {:induction false} ShowingSnoc(cat: Catalog, s: seq<int>, id: int)
    ensures Showing(cat, s + [id]) == Showing(cat, s) + (if cat.shows(id) then [id] else [])
    decreases |s|
  {
    if s != [] {
      assert (s + [id])[1..] == s[1..] + [id];
      ShowingSnoc(cat, s[1..], id);
    }
  }

  lemma {:induction false} ChargeSnoc(cat: Catalog, s: seq<int>, id: int)
    ensures Charge(cat, s + [id]) == Charge(cat, s) + cat.cost(id)
    decreases |s|
  {
    if s != [] {
      assert (s + [id])[1..] == s[1..] + [id];
      ChargeSnoc(cat, s[1..], id);
    }
  }

  lemma FitStep(cat: Catalog, s: seq<int>, i: nat, budget: nat, read: nat)
    requires i <= |s|
    ensures Fit(cat, s[i..], budget, read) ==
      if i == |s| || (budget > 0 && cat.cost(s[i]) > budget - read) then 0
      else 1 + Fit(cat, s[i + 1..], budget, if cat.shows(s[i]) then read + cat.cost(s[i]) else read)
  {
    if i < |s| { assert s[i..][0] == s[i] && s[i..][1..] == s[i + 1..]; }
  }

  lemma NothingRead(cat: Catalog)
    ensures Showing(cat, []) == [] && Charge(cat, []) == 0
  {
  }

  /** Reading candidates until the budget would be exceeded. */
  method LoadBatches(cat: Catalog, candidates: seq<int>, budget: nat)
    returns (batches: seq<int>, bytesRead: nat, truncated: bool)
    ensures batches == Showing(cat, candidates[..Fit(cat, candidates, budget, 0)])
    ensures bytesRead == Charge(cat, batches)
    ensures truncated <==> Fit(cat, candidates, budget, 0) < |candidates|
  {
    hide Fit, Showing, Charge;
    batches, bytesRead, truncated := [], 0, false;
    NothingRead(cat);
    assert candidates[..0] == [] && candidates[0..] == candidates;
    var i := 0;
    while i < |candidates|
      invariant 0 <= i <= |candidates|
      invariant batches == Showing(cat, candidates[..i]) && bytesRead == Charge(cat, batches)
      invariant Fit(cat, candidates, budget, 0) == i + Fit(cat, candidates[i..], budget, bytesRead)
    {
      FitStep(cat, candidates, i, budget, bytesRead);
      var estimate := cat.cost(candidates[i]);
      if budget > 0 && estimate > budget - bytesRead {
        truncated := true;
        return;
      }
      assert candidates[..i + 1] == candidates[..i] + [candidates[i]];
      ShowingSnoc(cat, candidates[..i], candidates[i]);
      if cat.shows(candidates[i]) {
        ChargeSnoc(cat, batches, candidates[i]);
        batches := batches + [candidates[i]];
        bytesRead := bytesRead + estimate;
      }
      i := i + 1;
    }
    FitStep(cat, candidates, i, budget, bytesRead);
    assert candidates[..i] == candidates;
  }

  /** The older direction: candidates, load, then the cursors. */
  method ListOlder(cat: Catalog, cursor: int, n: nat, budget: nat) returns (page: Page)
    requires n > 0
    ensures page == PageBelow(cat, cursor, n, budget)
  {
    hide Fit, Showing, Charge, TopIds, Below, Above;
    var candidates := TopIds(Below(cat, cursor), n + 1);
    var more := |candidates| > n;
    if more { candidates := candidates[..n]; }
    var batches, bytesRead, truncated := LoadBatches(cat, candidates, budget);
    var hasNext, nextCursor, hasPrev, prevCursor := more || truncated, 0, false, 0;
    if hasNext && |batches| > 0 { nextCursor := batches[|batches| - 1]; }
    else if truncated && |candidates| > 0 { nextCursor := candidates[0] + 1; }
    else if more && |candidates| > 0 { nextCursor := candidates[|candidates| - 1]; }
    if cursor > 0 {
      var newest := if |batches| > 0 then batches[0] else cursor - 1;
      hasPrev := Above(cat, newest) != {};
      if hasPrev { prevCursor := newest; }
    }
    return Page(batches, bytesRead, truncated, hasNext, nextCursor, hasPrev, prevCursor);
  }

  /** The newer direction reads upwards and is then reversed, so that every page is
      shown newest first. */
  method ListNewer(cat: Catalog, after: int, n: nat, budget: nat) returns (page: Page)
    requires n > 0
    ensures page == PageAbove(cat, after, n, budget)
  {
    hide Fit, Showing, Charge, FirstIds, Above;
    var candidates := FirstIds(Above(cat, after), n + 1);
    var more := |candidates| > n;
    if more { candidates := candidates[..n]; }
    var loaded, bytesRead, truncated := LoadBatches(cat, candidates, budget);
    var hasNext, nextCursor, hasPrev, prevCursor := false, 0, more || truncated, 0;
    if hasPrev && |loaded| > 0 { prevCursor := loaded[|loaded| - 1]; }
    else if truncated && |candidates| > 0 { prevCursor := candidates[0] - 1; }
    else if more && |candidates| > 0 { prevCursor := candidates[|candidates| - 1]; }
    var batches := NewestFirst(loaded);
    var oldest := if |batches| > 0 then batches[|batches| - 1] else after + 1;
    hasNext := (set id | id in cat.ids && id < oldest) != {};
    if hasNext { nextCursor := oldest; }
    return Page(batches, bytesRead, truncated, hasNext, nextCursor, hasPrev, prevCursor);
  }

  method ListHistory(cat: Catalog, cursor: int, after: int, limit: int, budget: nat) returns (page: Page)
    ensures page == PageOf(cat, cursor, after, limit, budget)
  {
    hide PageBelow, PageAbove;
    if cursor <= 0 && after > 0 {
      page := ListNewer(cat, after, PageLimit(limit), budget);
    } else {
      page := ListOlder(cat, cursor, PageLimit(limit), budget);
    }
  }
}
