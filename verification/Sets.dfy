/** Deterministic choices from finite sets of integers. */
module Sets {

  ghost function Pick<T(!new)>(s: set<T>): (x: T)
    requires s != {}
    ensures x in s
  {
    var x :| x in s; x
  }

  lemma {:induction false} LeastExists(s: set<int>)
    requires s != {}
    ensures exists m :: m in s && forall y | y in s :: m <= y
    decreases |s|
  {
    var x := Pick(s);
    var rest := s - {x};
    if rest == {} {
      forall y | y in s ensures y == x { assert y == x || y in rest; }
    } else {
      LeastExists(rest);
      var m :| m in rest && forall y | y in rest :: m <= y;
      var least := if x < m then x else m;
      forall y | y in s ensures least <= y { assert y == x || y in rest; }
      assert least in s;
    }
  }

  function Least(s: set<int>): (m: int)
    requires s != {}
    ensures m in s && forall y | y in s :: m <= y
  {
    LeastExists(s);
    var m :| m in s && forall y | y in s :: m <= y;
    m
  }

  /** ORDER BY id LIMIT n. */
  function FirstIds(s: set<int>, n: nat): (r: seq<int>)
    ensures forall id | id in r :: id in s
    ensures |r| <= n
    ensures r == [] <==> s == {} || n == 0
    ensures forall i, j | 0 <= i < j < |r| :: r[i] < r[j]
    ensures |r| < n ==> forall id | id in s :: id in r
    ensures forall id, i | id in s && 0 <= i < |r| && id < r[i] :: id in r
  {
    if s == {} || n == 0 then [] else
    var least := Least(s);
    var rest := FirstIds(s - {least}, n - 1);
    assert forall i | 0 <= i < |rest| :: rest[i] in s - {least} && least < rest[i];
    [least] + rest
  }

  lemma {:induction false} GreatestExists(s: set<int>)
    requires s != {}
    ensures exists m :: m in s && forall y | y in s :: y <= m
    decreases |s|
  {
    var x := Pick(s);
    var rest := s - {x};
    if rest == {} {
      forall y | y in s ensures y == x { assert y == x || y in rest; }
    } else {
      GreatestExists(rest);
      var m :| m in rest && forall y | y in rest :: y <= m;
      var greatest := if x > m then x else m;
      forall y | y in s ensures y <= greatest { assert y == x || y in rest; }
      assert greatest in s;
    }
  }

  function Greatest(s: set<int>): (m: int)
    requires s != {}
    ensures m in s && forall y | y in s :: y <= m
  {
    GreatestExists(s);
    var m :| m in s && forall y | y in s :: y <= m;
    m
  }

  /** ORDER BY id DESC LIMIT n. */
  function TopIds(s: set<int>, n: nat): (r: seq<int>)
    ensures forall id | id in r :: id in s
    ensures |r| <= n
    ensures r == [] <==> s == {} || n == 0
    ensures forall i, j | 0 <= i < j < |r| :: r[i] > r[j]
    ensures |r| < n ==> forall id | id in s :: id in r
    ensures forall id, i | id in s && 0 <= i < |r| && id > r[i] :: id in r
  {
    if s == {} || n == 0 then [] else
    var greatest := Greatest(s);
    var rest := TopIds(s - {greatest}, n - 1);
    assert forall i | 0 <= i < |rest| :: rest[i] in s - {greatest} && greatest > rest[i];
    [greatest] + rest
  }

  /** ORDER BY id. */
  function Ordered(ids: set<int>): (r: seq<int>)
    ensures forall id | id in r :: id in ids
    ensures forall i, j | 0 <= i < j < |r| :: r[i] < r[j]
  {
    FirstIds(ids, |ids|)
  }

  ghost predicate Ascending(s: seq<int>) {
    forall i, j | 0 <= i < j < |s| :: s[i] < s[j]
  }

  lemma OrderedCovers(ids: set<int>)
    ensures forall id :: id in Ordered(ids) <==> id in ids
    ensures Elements(Ordered(ids)) == ids
  {
    hide FirstIds;
    var r := Ordered(ids);
    if |r| == |ids| {
      var members := set id | id in r;
      assert members <= ids;
      DistinctSize(r);
      if members != ids { assert members < ids; Smaller(members, ids); }
    }
  }

  lemma TopCovers(ids: set<int>)
    ensures forall id :: id in TopIds(ids, |ids|) <==> id in ids
  {
    hide TopIds;
    var r := TopIds(ids, |ids|);
    if |r| == |ids| {
      var members := set id | id in r;
      assert members <= ids;
      DistinctSize(r);
      if members != ids { assert members < ids; Smaller(members, ids); }
    }
  }

  lemma Smaller(a: set<int>, b: set<int>)
    requires a < b
    ensures |a| < |b|
  {
    assert b == a + (b - a);
    var x := Pick(b - a);
    assert |b| == |a| + |b - a|;
  }

  lemma {:induction false} DistinctSize(s: seq<int>)
    requires forall i, j | 0 <= i < j < |s| :: s[i] != s[j]
    ensures |set id | id in s| == |s|
    decreases |s|
  {
    if s != [] {
      var n := |s| - 1;
      DistinctSize(s[..n]);
      assert (set id | id in s) == (set id | id in s[..n]) + {s[n]};
      assert s[n] !in s[..n];
    } else {
      assert (set id | id in s) == {};
    }
  }

  /** Ascending lists with the same members are equal. */
  lemma OrderedUnique(a: seq<int>, b: seq<int>)
    requires Ascending(a) && Ascending(b) && forall id :: id in a <==> id in b
    ensures a == b
    decreases |a|
  {
    assert a != [] ==> a[0] in a && a[0] in b;
    assert b != [] ==> b[0] in b && b[0] in a;
    if a != [] {
      var x, y := a[|a| - 1], b[|b| - 1];
      assert x in b && y in a;
      var i :| 0 <= i < |b| && b[i] == x;
      var j :| 0 <= j < |a| && a[j] == y;
      assert x == y;
      var a0, b0 := a[..|a| - 1], b[..|b| - 1];
      forall id ensures id in a0 <==> id in b0 {
        if id in a0 { assert id in a; var k :| 0 <= k < |b| && b[k] == id; assert b0[k] == id; }
        if id in b0 { assert id in b; var k :| 0 <= k < |a| && a[k] == id; assert a0[k] == id; }
      }
      OrderedUnique(a0, b0);
      assert a == a0 + [x] && b == b0 + [y];
    }
  }

  function Elements(ids: seq<int>): set<int> {
    set id | id in ids
  }

  lemma ElementsSnoc(ids: seq<int>, id: int)
    ensures Elements(ids + [id]) == Elements(ids) + {id}
  {
    assert forall x :: x in ids + [id] <==> x in ids || x == id;
  }

  // ---------------------------------------------------------------- the first of a set

  /** The members that come before one. */
  function Before(s: set<int>, id: int): set<int> {
    set y | y in s && y < id
  }

  lemma FirstIdsCons(s: set<int>, n: nat, id: int)
    requires s != {} && n > 0
    ensures id in FirstIds(s, n) <==> id == Least(s) || id in FirstIds(s - {Least(s)}, n - 1)
  {
  }

  lemma {:induction false} FirstIdsIff(s: set<int>, n: nat, id: int)
    ensures id in FirstIds(s, n) <==> id in s && |Before(s, id)| < n
    decreases n
  {
    hide FirstIds;
    if s != {} && n > 0 {
      var least := Least(s);
      var rest := s - {least};
      FirstIdsCons(s, n, id);
      FirstIdsIff(rest, n - 1, id);
      if id == least {
        assert Before(s, id) == {};
      } else if id in s {
        assert Before(s, id) == Before(rest, id) + {least};
        assert |Before(s, id)| == |Before(rest, id)| + 1;
      }
    }
  }

  /** The elements at some positions. */
  function Picked<T>(s: seq<T>, at: seq<int>): seq<T>
    requires forall k | 0 <= k < |at| :: 0 <= at[k] < |s|
  {
    seq(|at|, k requires 0 <= k < |at| => s[at[k]])
  }
}
