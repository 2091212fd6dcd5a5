/** Adaptive random prioritisation: each next test is, within a random sample of the remaining ones,
    the one farthest from all tests chosen so far. */
module AdaptiveRandom {

  import opened Collections

  type Dist = (nat, nat) -> real

  /** The distance from c to the nearest of the tests in p. */
  function Near(d: Dist, p: seq<nat>, c: nat): real
    requires p != []
  {
    var last := |p| - 1;
    if last == 0 then d(p[0], c)
    else
      var r := Near(d, p[..last], c);
      if d(p[last], c) < r then d(p[last], c) else r
  }

  lemma {:induction false} NearIsLeast(d: Dist, p: seq<nat>, c: nat)
    requires p != []
    ensures forall i :: 0 <= i < |p| ==> Near(d, p, c) <= d(p[i], c)
    ensures exists i :: 0 <= i < |p| && Near(d, p, c) == d(p[i], c)
  {
    if 1 < |p| {
      var r := p[..|p| - 1];
      NearIsLeast(d, r, c);
      assert forall i :: 0 <= i < |r| ==> r[i] == p[i];
    } else {
      assert Near(d, p, c) == d(p[0], c);
    }
  }

  lemma NearShrinks(d: Dist, p: seq<nat>, i: nat, j: nat, c: nat)
    requires 0 < i <= j <= |p|
    ensures Near(d, p[..j], c) <= Near(d, p[..i], c)
  {
    NearIsLeast(d, p[..i], c);
    NearIsLeast(d, p[..j], c);
    var k :| 0 <= k < i && Near(d, p[..i], c) == d(p[..i][k], c);
    assert p[..i][k] == p[..j][k];
  }

  // ----- finite sets of tests -----

  lemma DistinctBounded(s: seq<nat>, n: nat)
    requires Distinct(s) && forall i :: 0 <= i < |s| ==> s[i] < n
    ensures |s| <= n
    ensures |s| == n ==> forall x: nat :: x < n ==> x in s
  {
    DistinctSize(s);
    assert Elems(s) <= Below(n);
    assert Below(n) == Elems(s) + (Below(n) - Elems(s));
    if |s| == n {
      SubsetSize(Elems(s), Below(n));
      forall x: nat | x < n ensures x in s { assert x in Below(n) && x in Elems(s); }
    }
  }

  // ----- the algorithm -----

  ghost predicate Permutation(order: seq<nat>, n: nat) {
    |order| == n && Distinct(order) && forall i :: 0 <= i < n ==> order[i] < n
  }

  /** Out of n tests, order[m] was the farthest one in a sample s of k of those not yet chosen, or of
      all of them when fewer are left. The order may still be growing. */
  ghost predicate FarthestIn(d: Dist, order: seq<nat>, m: nat, s: set<nat>, k: nat, n: nat)
    requires 0 < m < |order| <= n
  {
    && |s| == (if k < n - m then k else n - m) && order[m] in s
    && forall c :: c in s ==>
                     c < n && c !in order[..m] && Near(d, order[..m], c) <= Near(d, order[..m], order[m])
  }

  ghost predicate Picked(d: Dist, order: seq<nat>, m: nat, k: nat, n: nat)
    requires 0 < m < |order| <= n
  {
    exists s :: FarthestIn(d, order, m, s, k, n)
  }

  /** random.sample: any k distinct elements, in any order. */
  method Sample(from: seq<nat>, k: nat) returns (s: seq<nat>)
    requires k <= |from| && Distinct(from)
    ensures |s| == k && Distinct(s) && forall c :: c in s ==> c in from
  {
    s := [];
    var left := from;
    while |s| < k
      invariant |s| <= k && |left| == |from| - |s|
      invariant Distinct(left) && Distinct(s)
      invariant (forall c :: c in s ==> c in from) && (forall c :: c in left ==> c in from && c !in s)
    {
      var i :| 0 <= i < |left|;
      assert left[i] in left;
      s := s + [left[i]];
      left := left[..i] + left[i + 1..];
    }
  }

  /** The first candidate at the greatest distance from the chosen tests. */
  method Farthest(d: Dist, chosen: seq<nat>, cands: seq<nat>) returns (best: nat)
    requires chosen != [] && cands != []
    ensures best < |cands|
    ensures forall i :: 0 <= i < |cands| ==> Near(d, chosen, cands[i]) <= Near(d, chosen, cands[best])
    ensures forall i :: 0 <= i < best ==> Near(d, chosen, cands[i]) < Near(d, chosen, cands[best])
  {
    best := 0;
    var most := Nearest(d, chosen, cands[0]);
    for col := 1 to |cands|
      invariant best < col && most == Near(d, chosen, cands[best])
      invariant forall i :: 0 <= i < col ==> Near(d, chosen, cands[i]) <= most
      invariant forall i :: 0 <= i < best ==> Near(d, chosen, cands[i]) < most
    {
      var r := Nearest(d, chosen, cands[col]);
      if most < r {
        best, most := col, r;
      }
    }
  }

  method Nearest(d: Dist, chosen: seq<nat>, c: nat) returns (r: real)
    requires chosen != []
    ensures r == Near(d, chosen, c)
  {
    r := d(chosen[0], c);
    assert chosen[..1] == [chosen[0]];
    for row := 1 to |chosen|
      invariant r == Near(d, chosen[..row], c)
    {
      assert chosen[..row + 1][..row] == chosen[..row];
      if d(chosen[row], c) < r {
        r := d(chosen[row], c);
      }
    }
    assert chosen[..|chosen|] == chosen;
  }

  /** The n tests are divided into those chosen and those left. */
  ghost predicate Split(order: seq<nat>, idx: seq<nat>, n: nat) {
    && |order| + |idx| == n && Distinct(order) && Distinct(idx)
    && (forall c :: c in idx ==> c < n && c !in order) && (forall c :: c in order ==> c < n)
  }

  lemma Move(order: seq<nat>, idx: seq<nat>, at: nat, n: nat)
    requires Split(order, idx, n) && at < |idx|
    ensures Split(order + [idx[at]], idx[..at] + idx[at + 1..], n)
  {
    var r := idx[..at] + idx[at + 1..];
    assert idx[at] in idx;
    forall c | c in r ensures c in idx && c != idx[at] {
      var i :| 0 <= i < |r| && r[i] == c;
      assert r[i] == if i < at then idx[i] else idx[i + 1];
    }
  }

  /** ARP over n tests with sample size k, for every outcome of the random choices. It fails exactly
      where drawing from nothing fails: no test at all, or a second test to pick from an empty sample. */
  method ARP(d: Dist, n: nat, k: int) returns (r: Option<seq<nat>>)
    ensures r.None? <==> n == 0 || (1 < n && k < 1)
    ensures r.Some? ==> Permutation(r.value, n)
    ensures r.Some? ==> forall m :: 0 < m < n ==> Picked(d, r.value, m, k, n)
  {
    if n == 0 || (1 < n && k < 1) {
      return None;
    }
    var idx: seq<nat> := seq(n, i => i);
    var first: nat :| first < n;
    Move([], idx, first, n);
    var order: seq<nat> := [] + [idx[first]];
    idx := idx[..first] + idx[first + 1..];
    var size := k;
    while |idx| != 0
      invariant Split(order, idx, n) && order != []
      invariant |idx| != 0 ==> 1 <= k && (size == k || size == |idx| + 1 <= k)
      invariant forall m :: 0 < m < |order| ==> Picked(d, order, m, k, n)
    {
      size := if |idx| < size then |idx| else size;
      var cands := Sample(idx, size);
      var best := Farthest(d, order, cands);
      var next := cands[best];
      RecordPick(d, order, cands, best, k, n);
      forall m | 0 < m < |order| ensures Picked(d, order + [next], m, k, n) { KeepPick(d, order, next, m, k, n); }
      assert next in idx;
      var at :| 0 <= at < |idx| && idx[at] == next;
      Move(order, idx, at, n);
      order := order + [next];
      idx := idx[..at] + idx[at + 1..];
    }
    assert forall i :: 0 <= i < n ==> order[i] in order;
    r := Some(order);
  }

  lemma RecordPick(d: Dist, order: seq<nat>, cands: seq<nat>, best: nat, k: nat, n: nat)
    requires order != [] && best < |cands| && |order| < n
    requires |cands| == if k < n - |order| then k else n - |order|
    requires Distinct(cands)
    requires forall c :: c in cands ==> c < n && c !in order
    requires forall i :: 0 <= i < |cands| ==> Near(d, order, cands[i]) <= Near(d, order, cands[best])
    ensures Picked(d, order + [cands[best]], |order|, k, n)
  {
    var s := Elems(cands);
    DistinctSize(cands);
    var o := order + [cands[best]];
    assert o[..|order|] == order && cands[best] in cands;
    assert FarthestIn(d, o, |order|, s, k, n);
  }

  lemma KeepPick(d: Dist, order: seq<nat>, next: nat, m: nat, k: nat, n: nat)
    requires 0 < m < |order| < n && Picked(d, order, m, k, n)
    ensures Picked(d, order + [next], m, k, n)
  {
    var s :| FarthestIn(d, order, m, s, k, n);
    assert (order + [next])[..m] == order[..m];
    assert FarthestIn(d, order + [next], m, s, k, n);
  }

  // ----- what a full sample gives -----

  /** order[m] is the farthest of all tests not yet chosen. */
  ghost predicate Farthermost(d: Dist, order: seq<nat>, m: nat)
    requires 0 < m < |order|
  {
    forall c :: c in order[m..] ==> Near(d, order[..m], c) <= Near(d, order[..m], order[m])
  }

  ghost predicate FarthestFirst(d: Dist, order: seq<nat>) {
    forall m :: 0 < m < |order| ==> Farthermost(d, order, m)
  }

  /** A sample at least as large as what remains is all that remains. */
  lemma FullSample(d: Dist, order: seq<nat>, m: nat, k: nat)
    requires Permutation(order, |order|) && |order| - 1 <= k && 0 < m < |order|
    requires Picked(d, order, m, k, |order|)
    ensures Farthermost(d, order, m)
  {
    hide Near;
    var s :| FarthestIn(d, order, m, s, k, |order|);
    var rest := Elems(order[m..]);
    DistinctSize(order[m..]);
    DistinctBounded(order, |order|);
    assert order == order[..m] + order[m..];
    forall c | c in s ensures c in rest { assert c in order; }
    SubsetSize(s, rest);
    assert forall c :: c in order[m..] ==> c in rest;
  }

  lemma FullSamplesAreFarthestFirst(d: Dist, order: seq<nat>, k: nat)
    requires Permutation(order, |order|) && |order| - 1 <= k
    requires forall m :: 0 < m < |order| ==> Picked(d, order, m, k, |order|)
    ensures FarthestFirst(d, order)
  {
    forall m | 0 < m < |order| ensures Farthermost(d, order, m) {
      FullSample(d, order, m, k);
    }
  }

  /** The chosen tests come ever closer to the earlier ones. */
  lemma DistancesShrink(d: Dist, order: seq<nat>, i: nat, j: nat)
    requires FarthestFirst(d, order) && 0 < i <= j < |order|
    ensures Near(d, order[..j], order[j]) <= Near(d, order[..i], order[i])
  {
    NearShrinks(d, order, i, j, order[j]);
    assert order[i..][j - i] == order[j];
    assert Farthermost(d, order, i);
  }

  ghost predicate Metric(d: Dist, n: nat) {
    && (forall x: nat, y: nat :: x < n && y < n ==> d(x, y) == d(y, x))
    && (forall x: nat, y: nat, z: nat :: x < n && y < n && z < n ==> d(x, z) <= d(x, y) + d(y, z))
  }

  ghost predicate Within(d: Dist, centres: seq<nat>, i: nat, t: nat, r: real) {
    i < |centres| && d(centres[i], t) <= r
  }

  ghost predicate CoveredBy(d: Dist, centres: seq<nat>, t: nat, r: real) {
    exists i :: Within(d, centres, i, t, r)
  }

  /** Every test is within r of one of the centres. */
  ghost predicate Covers(d: Dist, n: nat, centres: seq<nat>, r: real) {
    && (forall i :: 0 <= i < |centres| ==> centres[i] < n)
    && (forall t: nat :: t < n ==> CoveredBy(d, centres, t, r))
  }

  lemma Pigeonhole(f: seq<nat>, holes: nat)
    requires holes < |f| && forall i :: 0 <= i < |f| ==> f[i] < holes
    ensures exists i, j :: 0 <= i < j < |f| && f[i] == f[j]
  {
    if Distinct(f) {
      DistinctBounded(f, holes);
      assert false;
    }
  }

  /** Names a covering centre for each point. */
  lemma {:induction false} Assign(d: Dist, n: nat, centres: seq<nat>, r: real, points: seq<nat>) returns (f: seq<nat>)
    requires Covers(d, n, centres, r) && forall i :: 0 <= i < |points| ==> points[i] < n
    ensures |f| == |points|
    ensures forall i :: 0 <= i < |f| ==> Within(d, centres, f[i], points[i], r)
  {
    if points == [] {
      f := [];
    } else {
      var last := |points| - 1;
      var g := Assign(d, n, centres, r, points[..last]);
      assert CoveredBy(d, centres, points[last], r);
      var c :| Within(d, centres, c, points[last], r);
      f := g + [c];
    }
  }

  /** Two of the first m choices, or one of them and a test left out, are at least as far apart as the
      test left out is from all of them. */
  lemma Spread(d: Dist, order: seq<nat>, m: nat, t: nat, i: nat, j: nat)
    requires FarthestFirst(d, order) && 0 < m <= |order| && t in order[m..] && i < j <= m
    ensures Near(d, order[..m], t) <= d(order[i], if j == m then t else order[j])
  {
    if j == m {
      NearIsLeast(d, order[..m], t);
      assert order[..m][i] == order[i];
    } else {
      NearShrinks(d, order, j, m, t);
      NearIsLeast(d, order[..j], order[j]);
      assert order[..j][i] == order[i];
      assert Farthermost(d, order, j);
    }
  }

  lemma TwoArms(d: Dist, n: nat, centres: seq<nat>, i: nat, x: nat, y: nat, r: real)
    requires Metric(d, n) && x < n && y < n && i < |centres| && centres[i] < n
    requires Within(d, centres, i, x, r) && Within(d, centres, i, y, r)
    ensures d(x, y) <= 2.0 * r
  {
    var c := centres[i];
    assert d(x, y) <= d(x, c) + d(c, y);
  }

  /** Farthest-first choice is within a factor two of the best choice of m tests: if any m tests are within
      r of everything, then the first m of the order are within 2r of everything. */
  lemma TwiceOptimal(d: Dist, order: seq<nat>, m: nat, centres: seq<nat>, r: real, t: nat)
    requires Permutation(order, |order|) && FarthestFirst(d, order) && Metric(d, |order|)
    requires 0 < m <= |order| && |centres| <= m && Covers(d, |order|, centres, r) && t < |order|
    ensures Near(d, order[..m], t) <= 2.0 * r
  {
    hide Near, Metric;
    var points := order[..m] + [t];
    var f := Assign(d, |order|, centres, r, points);
    DistinctBounded(order, |order|);
    if t in order[..m] {
      NearIsLeast(d, order[..m], t);
      TwoArms(d, |order|, centres, f[m], t, t, r);
    } else {
      assert t in order && order == order[..m] + order[m..];
      Pigeonhole(f, |centres|);
      var i, j :| 0 <= i < j < |f| && f[i] == f[j];
      Spread(d, order, m, t, i, j);
      assert Within(d, centres, f[i], points[i], r) && Within(d, centres, f[j], points[j], r);
      TwoArms(d, |order|, centres, f[i], points[i], points[j], r);
    }
  }
}
