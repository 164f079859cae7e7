/** Routing rules of a destination, and the text key by which rule sets share a digest. */
module Routing {

  /** The minimum severity; the lowest is the empty text. */
  datatype Severity = Low | Medium | High {
    function Rank(): nat {
      match this
      case Low => 0
      case Medium => 1
      case High => 2
    }

    predicate AtLeast(other: Severity) { Rank() >= other.Rank() }
  }

  datatype Change = Change(collector: string, kind: string, severity: Severity)

  /** Empty lists and the lowest severity select everything. */
  datatype Rules = Rules(minSeverity: Severity, includes: seq<string>, excludes: seq<string>, kinds: seq<string>) {
    predicate Matches(c: Change) {
      && c.severity.AtLeast(minSeverity)
      && (includes != [] ==> c.collector in includes)
      && c.collector !in excludes
      && (kinds != [] ==> c.kind in kinds)
    }

    /** What normalization leaves in the lists: names of lower-case letters and `_`. */
    predicate Normal() {
      Names(includes) && Names(excludes) && Names(kinds)
    }

    /** The minimum severity and the three lists, joined. */
    function Key(): string {
      SeverityText(minSeverity) + ['|'] + Join(includes) + ['|'] + Join(excludes) + ['|'] + Join(kinds)
    }
  }

  type NormalRules = r: Rules | r.Normal() witness Rules(Low, [], [], [])

  predicate Names(list: seq<string>) {
    forall i | 0 <= i < |list| :: list[i] != [] && forall c | c in list[i] :: 'a' <= c <= 'z' || c == '_'
  }

  function SeverityText(severity: Severity): string {
    match severity
    case Low => []
    case Medium => ['m', 'e', 'd', 'i', 'u', 'm']
    case High => ['h', 'i', 'g', 'h']
  }

  function Join(list: seq<string>): string {
    if list == [] then [] else if |list| == 1 then list[0] else list[0] + [','] + Join(list[1..])
  }

  /** Texts without a mark are recovered from around the first mark. */
  lemma FirstMark(mark: char, a: string, x: string, b: string, y: string)
    requires mark !in a && mark !in b && a + [mark] + x == b + [mark] + y
    ensures a == b && x == y
  {
    var s := a + [mark] + x;
    assert s[|a|] == mark && s[|b|] == mark;
    assert forall i | 0 <= i < |a| :: s[i] == a[i] && a[i] in a;
    assert forall i | 0 <= i < |b| :: s[i] == b[i] && b[i] in b;
    assert |a| == |b|;
    assert a == s[..|a|] == b && x == s[|a| + 1..] == y;
  }

  lemma CommaIff(list: seq<string>)
    requires Names(list)
    ensures ',' in Join(list) <==> |list| >= 2
  {
    if |list| >= 2 { assert Join(list)[|list[0]|] == ','; }
  }

  lemma {:induction false} JoinInjective(a: seq<string>, b: seq<string>)
    requires Names(a) && Names(b) && Join(a) == Join(b)
    ensures a == b
    decreases |a|
  {
    CommaIff(a);
    CommaIff(b);
    if |a| >= 2 {
      FirstMark(',', a[0], Join(a[1..]), b[0], Join(b[1..]));
      JoinInjective(a[1..], b[1..]);
      assert a == [a[0]] + a[1..] && b == [b[0]] + b[1..];
    } else {
      assert |a| == 0 <==> Join(a) == [];
      assert |b| == 0 <==> Join(b) == [];
    }
  }

  lemma {:induction false} NoBar(list: seq<string>)
    requires Names(list)
    ensures '|' !in Join(list)
    decreases |list|
  {
    if |list| >= 2 { NoBar(list[1..]); }
  }

  /** Normalized rule sets with the same key are the same. */
  lemma KeyInjective(a: Rules, b: Rules)
    requires a.Normal() && b.Normal() && a.Key() == b.Key()
    ensures a == b
  {
    hide Join, Names;
    NoBar(a.includes); NoBar(b.includes);
    NoBar(a.excludes); NoBar(b.excludes);
    var (aLists, bLists) := (Join(a.includes) + ['|'] + Join(a.excludes) + ['|'] + Join(a.kinds),
        Join(b.includes) + ['|'] + Join(b.excludes) + ['|'] + Join(b.kinds));
    var (aRest, bRest) := (Join(a.excludes) + ['|'] + Join(a.kinds), Join(b.excludes) + ['|'] + Join(b.kinds));
    assert a.Key() == SeverityText(a.minSeverity) + ['|'] + aLists
        && b.Key() == SeverityText(b.minSeverity) + ['|'] + bLists;
    assert aLists == Join(a.includes) + ['|'] + aRest && bLists == Join(b.includes) + ['|'] + bRest;
    FirstMark('|', SeverityText(a.minSeverity), aLists, SeverityText(b.minSeverity), bLists);
    FirstMark('|', Join(a.includes), aRest, Join(b.includes), bRest);
    FirstMark('|', Join(a.excludes), Join(a.kinds), Join(b.excludes), Join(b.kinds));
    JoinInjective(a.includes, b.includes);
    JoinInjective(a.excludes, b.excludes);
    JoinInjective(a.kinds, b.kinds);
    SeverityInjective(a.minSeverity, b.minSeverity);
  }

  lemma SeverityInjective(a: Severity, b: Severity)
    requires SeverityText(a) == SeverityText(b)
    ensures a == b
  {
    assert SeverityText(a) != [] ==> SeverityText(a)[0] == SeverityText(b)[0];
  }
}
