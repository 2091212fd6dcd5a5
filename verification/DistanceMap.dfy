/** The table of pairwise test distances, filled so that each pair is measured once. */
module DistanceMap {

  type Table = map<string, map<string, real>>

  predicate Known(t: Table, a: string, b: string) {
    a in t && b in t[a]
  }

  /** The distance the selection loop looks up: the entry, else the mirrored entry, else 10000. */
  function Lookup(t: Table, a: string, b: string): real {
    if Known(t, a, b) then t[a][b] else if Known(t, b, a) then t[b][a] else 10000.0
  }

  ghost predicate BeforeAt(tests: seq<string>, i: nat, a: string, b: string) {
    i < |tests| && tests[i] == a && forall k :: 0 <= k < i ==> tests[k] != b
  }

  /** a occurs in the list, at a place before which b does not. */
  ghost predicate Before(tests: seq<string>, a: string, b: string) {
    exists i :: BeforeAt(tests, i, a, b)
  }

  /** The measurement of a pair, taken in the order in which the two first occur. */
  ghost function Measure(tests: seq<string>, f: (string, string) -> real, a: string, b: string): real {
    if Before(tests, a, b) then f(a, b) else f(b, a)
  }

  lemma {:induction false} OneIsBefore(tests: seq<string>, a: string, b: string)
    requires a in tests
    ensures Before(tests, a, b) || Before(tests, b, a)
  {
    var front, last := tests[..|tests| - 1], tests[|tests| - 1];
    assert tests == front + [last];
    if a in front {
      OneIsBefore(front, a, b);
      var x, y := if Before(front, a, b) then a else b, if Before(front, a, b) then b else a;
      var i :| BeforeAt(front, i, x, y);
      assert BeforeAt(tests, i, x, y);
    } else if b in front {
      var i :| 0 <= i < |front| && front[i] == b;
      assert BeforeAt(tests, i, b, a);
    } else {
      assert BeforeAt(tests, |front|, a, b);
    }
  }

  lemma BothBefore(tests: seq<string>, a: string, b: string)
    requires Before(tests, a, b) && Before(tests, b, a)
    ensures a == b
  {
    var i :| BeforeAt(tests, i, a, b);
    var j :| BeforeAt(tests, j, b, a);
  }

  lemma MeasureSymmetric(tests: seq<string>, f: (string, string) -> real, a: string, b: string)
    requires a in tests
    ensures Measure(tests, f, a, b) == Measure(tests, f, b, a)
  {
    OneIsBefore(tests, a, b);
    if Before(tests, a, b) && Before(tests, b, a) {
      BothBefore(tests, a, b);
    }
  }

  /** Every entry is between listed tests and is the measurement of its pair. */
  ghost predicate Measured(t: Table, tests: seq<string>, f: (string, string) -> real) {
    forall a, b {:trigger Known(t, a, b)} :: Known(t, a, b) ==>
      a in tests && b in tests && t[a][b] == Measure(tests, f, a, b)
  }

  function Written(t: Table, a: string, b: string, v: real): (r: Table)
    ensures forall x, y {:trigger Known(r, x, y)} :: Known(r, x, y) <==> Known(t, x, y) || (x == a && y == b)
    ensures Known(r, a, b) && r[a][b] == v
    ensures forall x, y {:trigger Known(r, x, y)} :: Known(r, x, y) && (x != a || y != b)
             ==> Known(t, x, y) && r[x][y] == t[x][y]
  {
    t[a := (if a in t then t[a] else map[])[b := v]]
  }

  /** The scan has reached column j of row i, and with it the entry of a and b. */
  ghost predicate Reached(tests: seq<string>, present: set<string>, i: nat, j: nat, a: string, b: string)
    requires i <= |tests| && j <= |tests|
  {
    && a in present && b in present
    && ((a in tests[..i] && b in tests) || (i < |tests| && a == tests[i] && b in tests[..j]))
  }

  ghost predicate Filled(t: Table, tests: seq<string>, present: set<string>, i: nat, j: nat)
    requires i <= |tests| && j <= |tests|
  {
    forall a, b {:trigger Known(t, a, b)} :: Known(t, a, b) <==> Reached(tests, present, i, j, a, b)
  }

  lemma NextColumn(t: Table, tests: seq<string>, present: set<string>, i: nat, j: nat, v: real)
    requires i < |tests| && j < |tests| && tests[i] in present && Filled(t, tests, present, i, j)
    ensures tests[j] in present ==> Filled(Written(t, tests[i], tests[j], v), tests, present, i, j + 1)
    ensures tests[j] !in present ==> Filled(t, tests, present, i, j + 1)
  {
    assert tests[..j + 1] == tests[..j] + [tests[j]];
  }

  lemma NextRow(t: Table, tests: seq<string>, present: set<string>, i: nat)
    requires i < |tests|
    requires Filled(t, tests, present, i, if tests[i] in present then |tests| else 0)
    ensures Filled(t, tests, present, i + 1, 0)
  {
    assert tests[..i + 1] == tests[..i] + [tests[i]] && tests[..|tests|] == tests;
  }

  /** What the loop writes at row i and column j is the measurement of that pair. */
  lemma WrittenMeasured(t: Table, tests: seq<string>, present: set<string>, f: (string, string) -> real, i: nat, j: nat)
    requires i < |tests| && j < |tests| && tests[i] in present && tests[j] in present
    requires Measured(t, tests, f) && Filled(t, tests, present, i, j)
    ensures var a, b := tests[i], tests[j];
            Measured(Written(t, a, b, if Known(t, b, a) then t[b][a] else f(a, b)), tests, f)
  {
    var a, b := tests[i], tests[j];
    if Known(t, b, a) {
      MeasureSymmetric(tests, f, a, b);
    } else {
      assert !Reached(tests, present, i, j, b, a);
      assert forall k :: 0 <= k < i ==> tests[k] in tests[..i];
      assert BeforeAt(tests, i, a, b);
    }
    hide Measure, Filled;
  }

  /** get_distance_map: each pair of present tests is measured once, in the order of the list. */
  method GetDistanceMap(tests: seq<string>, present: set<string>, f: (string, string) -> real) returns (t: Table)
    ensures Measured(t, tests, f)
    ensures forall a, b {:trigger Known(t, a, b)} ::
              Known(t, a, b) <==> a in tests && b in tests && a in present && b in present
  {
    hide Measured;
    t := map[];
    Empty(tests, present, f);
    for i := 0 to |tests|
      invariant Measured(t, tests, f) && Filled(t, tests, present, i, 0)
    {
      if tests[i] in present {
        for j := 0 to |tests|
          invariant Measured(t, tests, f) && Filled(t, tests, present, i, j)
        {
          var v := if Known(t, tests[j], tests[i]) then t[tests[j]][tests[i]] else f(tests[i], tests[j]);
          NextColumn(t, tests, present, i, j, v);
          if tests[j] in present {
            WrittenMeasured(t, tests, present, f, i, j);
            t := Written(t, tests[i], tests[j], v);
          }
        }
      }
      NextRow(t, tests, present, i);
    }
    assert tests[..|tests|] == tests;
  }

  lemma Empty(tests: seq<string>, present: set<string>, f: (string, string) -> real)
    ensures Measured(map[], tests, f) && Filled(map[], tests, present, 0, 0)
  {
  }

  /** The looked-up distance is symmetric on all names, whether or not the measurement is; it is the
      measurement where the table has the pair, and the default elsewhere. */
  /** For a symmetric measure the order of the tests does not matter. */
  lemma LookupIs(t: Table, tests: seq<string>, f: (string, string) -> real, a: string, b: string)
    requires Measured(t, tests, f) && Known(t, a, b) && f(a, b) == f(b, a)
    ensures Lookup(t, a, b) == f(a, b)
  {
    LookupSymmetric(t, tests, f, a, b);
  }

  lemma LookupSymmetric(t: Table, tests: seq<string>, f: (string, string) -> real, a: string, b: string)
    requires Measured(t, tests, f)
    ensures Lookup(t, a, b) == Lookup(t, b, a)
    ensures Lookup(t, a, b) == if Known(t, a, b) || Known(t, b, a) then Measure(tests, f, a, b) else 10000.0
  {
    hide Measure;
    if Known(t, a, b) || Known(t, b, a) {
      MeasureSymmetric(tests, f, a, b);
    }
  }
}
