/** The dataset comparer (`utils/dataset-comparer.py`): the group names only
    in the shorts dataset, only in the roster, and in both, each listed in
    Python's string order. */
module DatasetComparer {

  // ---- Python's string order ----

  /** `a < b` on Python strings: code point by code point, a proper prefix
      first. */
  predicate Less(a: string, b: string)
    decreases |a|
  {
    if a == [] then b != []
    else if b == [] then false
    else if a[0] != b[0] then a[0] < b[0]
    else Less(a[1..], b[1..])
  }

  lemma {:induction false} LessIrreflexive(a: string)
    ensures !Less(a, a)
    decreases |a|
  {
    if a != [] {
      LessIrreflexive(a[1..]);
    }
  }

  lemma {:induction false} LessTransitive(a: string, b: string, c: string)
    requires Less(a, b) && Less(b, c)
    ensures Less(a, c)
    decreases |a|
  {
    if a != [] && b != [] && c != [] && a[0] == b[0] && b[0] == c[0] {
      LessTransitive(a[1..], b[1..], c[1..]);
    }
  }

  lemma {:induction false} LessTotal(a: string, b: string)
    ensures a == b || Less(a, b) || Less(b, a)
    decreases |a|
  {
    if a != [] && b != [] && a[0] == b[0] {
      LessTotal(a[1..], b[1..]);
      if a[1..] == b[1..] {
        assert a == [a[0]] + a[1..] && b == [b[0]] + b[1..];
      }
    }
  }

  /** `m` comes first among the elements of `s`. */
  predicate IsLeast(m: string, s: set<string>)
  {
    m in s && forall x :: x in s ==> m == x || Less(m, x)
  }

  lemma {:induction false} LeastExists(s: set<string>)
    requires s != {}
    ensures exists m :: IsLeast(m, s)
    decreases |s|
  {
    var x :| x in s;
    if s != {x} {
      var rest := s - {x};
      LeastExists(rest);
      var m :| IsLeast(m, rest);
      LessTotal(x, m);
      if Less(x, m) {
        forall y | y in s ensures x == y || Less(x, y) {
          if y != x && y != m {
            LessTransitive(x, m, y);
          }
        }
        assert IsLeast(x, s);
      } else {
        assert IsLeast(m, s);
      }
    } else {
      assert IsLeast(x, s);
    }
  }

  lemma LeastUnique(s: set<string>, a: string, b: string)
    requires IsLeast(a, s) && IsLeast(b, s)
    ensures a == b
  {
    if a != b {
      assert Less(a, b) && Less(b, a);
      LessTransitive(a, b, a);
      LessIrreflexive(a);
    }
  }

  /** The first element of a non-empty set of names. */
  function Least(s: set<string>): (m: string)
    requires s != {}
    ensures IsLeast(m, s)
  {
    LeastExists(s);
    forall a, b | IsLeast(a, s) && IsLeast(b, s) ensures a == b {
      LeastUnique(s, a, b);
    }
    var m :| IsLeast(m, s);
    m
  }

  /** Every element comes before every later one: ascending with no
      duplicates. */
  predicate StrictlySorted(r: seq<string>)
  {
    forall i, j :: 0 <= i < j < |r| ==> Less(r[i], r[j])
  }

  /** `sorted(s)` for a set of names. */
  function SortedOf(s: set<string>): (r: seq<string>)
    ensures StrictlySorted(r)
    ensures forall x :: x in r <==> x in s
    ensures |r| == |s|
    decreases |s|
  {
    if s == {} then []
    else
      var m := Least(s);
      var rest := SortedOf(s - {m});
      assert forall j :: 0 <= j < |rest| ==> Less(m, rest[j]) by {
        forall j | 0 <= j < |rest| ensures Less(m, rest[j]) {
          assert rest[j] in s - {m};
        }
      }
      [m] + rest
  }

  /** A sorted listing without duplicates is determined by its elements:
      `SortedOf` is the only one. */
  lemma {:induction false} SortedUnique(r1: seq<string>, r2: seq<string>)
    requires StrictlySorted(r1) && StrictlySorted(r2)
    requires forall x :: x in r1 <==> x in r2
    ensures r1 == r2
    decreases |r1|
  {
    if r1 != [] {
      assert r1[0] in r2;
    }
    if r2 != [] {
      assert r2[0] in r1;
    }
    if r1 != [] && r2 != [] {
      forall j | 0 < j < |r1| ensures r1[j] != r1[0] {
        LessIrreflexive(r1[0]);
      }
      forall j | 0 < j < |r2| ensures r2[j] != r2[0] {
        LessIrreflexive(r2[0]);
      }
      if r1[0] != r2[0] {
        assert r1[0] in r2 && r2[0] in r1;
        var i :| 0 <= i < |r2| && r2[i] == r1[0];
        var j :| 0 <= j < |r1| && r1[j] == r2[0];
        assert Less(r2[0], r1[0]) && Less(r1[0], r2[0]);
        LessTransitive(r1[0], r2[0], r1[0]);
        LessIrreflexive(r1[0]);
      }
      forall x ensures x in r1[1..] <==> x in r2[1..] {
        assert x in r1[1..] <==> x in r1 && x != r1[0];
        assert x in r2[1..] <==> x in r2 && x != r2[0];
      }
      SortedUnique(r1[1..], r2[1..]);
      assert r1 == [r1[0]] + r1[1..] && r2 == [r2[0]] + r2[1..];
    }
  }

  /** Any sorted duplicate-free listing of `s` is `SortedOf(s)`. */
  lemma SortedOfUnique(s: set<string>, r: seq<string>)
    requires StrictlySorted(r) && forall x :: x in r <==> x in s
    ensures r == SortedOf(s)
  {
    SortedUnique(r, SortedOf(s));
  }

  // ---- compare_group_sets (source lines 9-21) ----

  datatype Comparison = Comparison(onlyInJsonData: seq<string>, onlyInCsvData: seq<string>, inBothDatasets: seq<string>)

  /** `compare_group_sets`: the three lists hold `A - B`, `B - A` and `A & B`,
      each sorted without duplicates. */
  function CompareGroupSets(jsonDataKeys: set<string>, csvGroups: set<string>): (c: Comparison)
    ensures forall x :: x in c.onlyInJsonData <==> x in jsonDataKeys && x !in csvGroups
    ensures forall x :: x in c.onlyInCsvData <==> x in csvGroups && x !in jsonDataKeys
    ensures forall x :: x in c.inBothDatasets <==> x in jsonDataKeys && x in csvGroups
    ensures StrictlySorted(c.onlyInJsonData) && StrictlySorted(c.onlyInCsvData) && StrictlySorted(c.inBothDatasets)
  {
    Comparison(SortedOf(jsonDataKeys - csvGroups), SortedOf(csvGroups - jsonDataKeys), SortedOf(jsonDataKeys * csvGroups))
  }

  /** Every name of either set is in exactly one of the three lists. */
  lemma ComparePartition(a: set<string>, b: set<string>, x: string)
    ensures var c := CompareGroupSets(a, b);
      var n := (if x in c.onlyInJsonData then 1 else 0) + (if x in c.onlyInCsvData then 1 else 0)
        + (if x in c.inBothDatasets then 1 else 0);
      (x in a + b ==> n == 1) && (x !in a + b ==> n == 0)
  {
  }

  /** `|only_in_json| + |in_both| == |A|` and `|only_in_csv| + |in_both| == |B|`. */
  lemma CompareSizes(a: set<string>, b: set<string>)
    ensures var c := CompareGroupSets(a, b);
      && |c.onlyInJsonData| + |c.inBothDatasets| == |a|
      && |c.onlyInCsvData| + |c.inBothDatasets| == |b|
  {
    assert a == (a - b) + (a * b);
    assert b == (b - a) + (a * b);
  }

  /** Swapping the arguments swaps the first two lists. */
  lemma CompareSwap(a: set<string>, b: set<string>)
    ensures var c, d := CompareGroupSets(a, b), CompareGroupSets(b, a);
      d == Comparison(c.onlyInCsvData, c.onlyInJsonData, c.inBothDatasets)
  {
    assert b * a == a * b;
  }
}
