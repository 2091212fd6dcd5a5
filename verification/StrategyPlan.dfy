/** The order of the additional strategy, said only in terms of the tests, what each relates to and the returned
    positions. */
module StrategyPlan {

  import opened Collections
  import opened AdditionalStrategy
  import opened StrategyLaws

  /** The first pick after the last one before k that added nothing to the picks since such a pick. */
  ghost function Since(M: Relation, names: seq<string>, k: nat): (r: nat)
    requires k <= |names|
    ensures r <= k
  {
    if k == 0 then 0
    else
      var r := Since(M, names, k - 1);
      if M(names[k - 1]) <= UnionOf(M, names[r..k - 1]) then k else r
  }

  /** How many functions test t would add as pick k. */
  ghost function Adds(M: Relation, names: seq<string>, k: nat, t: string): nat
    requires k <= |names|
  {
    |M(t) - UnionOf(M, names[Since(M, names, k)..k])|
  }

  /** Pick k adds more than every later pick would in its place, or as much and stands earlier in the list. */
  ghost predicate Beats(M: Relation, tests: seq<string>, p: seq<nat>, k: nat, j: nat)
    requires forall i :: 0 <= i < |p| ==> p[i] < |tests|
    requires k < |p| && j < |p|
  {
    var names := NamesAt(tests, p);
    var own, other := Adds(M, names, k, names[k]), Adds(M, names, k, names[j]);
    other < own || (other == own && p[k] < p[j])
  }

  /** p lists every position once, in the order in which the tests are picked. */
  ghost predicate Plan(M: Relation, tests: seq<string>, p: seq<nat>) {
    && |p| == |tests| && Distinct(p) && (forall i :: 0 <= i < |p| ==> p[i] < |tests|)
    && forall k, j :: 0 <= k < j < |p| ==> Beats(M, tests, p, k, j)
  }

  /** order holds, pick by pick, the last position of the picked name. */
  ghost predicate LastPositions(tests: seq<string>, p: seq<nat>, order: seq<nat>) {
    && |order| == |p|
    && forall k :: 0 <= k < |p| ==>
                     && p[k] < |tests| && order[k] < |tests| && tests[order[k]] == tests[p[k]]
                     && forall j :: order[k] < j < |tests| ==> tests[j] != tests[p[k]]
  }

  // ----- the picks follow a plan -----

  lemma {:induction false} SinceIs(M: Relation, names: seq<string>, k: nat)
    requires k <= |names|
    ensures Since(M, names, k) == SinceReset(M, names, k)
    ensures UnionOf(M, names[Since(M, names, k)..k]) == CoveredAt(M, names, k)
  {
    hide Gain, UnionOf;
    if k != 0 {
      SinceIs(M, names, k - 1);
      NoGain(M, names[k - 1], CoveredAt(M, names, k - 1));
    }
    CoveredIsUnion(M, names, k);
  }

  ghost predicate Ascending(pos: seq<nat>) {
    forall i, j :: 0 <= i < j < |pos| ==> pos[i] < pos[j]
  }

  lemma WithoutAscending(pos: seq<nat>, b: nat)
    requires Ascending(pos) && b < |pos|
    ensures Ascending(Without(pos, b))
  {
  }

  /** x stands at a position of pos that holds t. */
  ghost predicate StandsFor(tests: seq<string>, pos: seq<nat>, x: nat, t: string) {
    exists i :: 0 <= i < |pos| == |tests| && pos[i] == x && tests[i] == t
  }

  /** Pick k beats pick j at the positions p, starting from c. */
  ghost predicate Ahead(M: Relation, c: set<string>, names: seq<string>, p: seq<nat>, k: nat, j: nat) {
    && k < |names| == |p| && j < |p|
    && var covered := CoveredFrom(M, c, names, k);
    && var own, other := Gain(M, names[k], covered), Gain(M, names[j], covered);
    other < own || (other == own && p[k] < p[j])
  }

  /** The positions of the picks: each is taken out of the ascending list when its test is picked. */
  ghost function Places(M: Relation, tests: seq<string>, pos: seq<nat>, c: set<string>): (p: seq<nat>)
    requires |pos| == |tests|
    ensures |p| == |tests|
    decreases |tests|
  {
    if tests == [] then []
    else
      var b := Best(M, tests, c);
      [pos[b]] + Places(M, Without(tests, b), Without(pos, b), Cover(M, tests[b], c))
  }

  lemma {:induction false} PlacesPermute(M: Relation, tests: seq<string>, pos: seq<nat>, c: set<string>)
    requires |pos| == |tests|
    ensures multiset(Places(M, tests, pos, c)) == multiset(pos)
    decreases |tests|
  {
    hide Best, Cover;
    if tests != [] {
      var b := Best(M, tests, c);
      PlacesPermute(M, Without(tests, b), Without(pos, b), Cover(M, tests[b], c));
      WithoutMultiset(pos, b);
    }
  }

  lemma {:induction false} PlacesStand(M: Relation, tests: seq<string>, pos: seq<nat>, c: set<string>, k: nat)
    requires |pos| == |tests| && k < |tests|
    ensures StandsFor(tests, pos, Places(M, tests, pos, c)[k], Picks(M, tests, c)[k])
    decreases |tests|
  {
    hide Best, Cover;
    var b := Best(M, tests, c);
    if k != 0 {
      var rest, left := Without(tests, b), Without(pos, b);
      PlacesStand(M, rest, left, Cover(M, tests[b], c), k - 1);
      var x, t := Places(M, tests, pos, c)[k], Picks(M, tests, c)[k];
      var i :| 0 <= i < |left| && left[i] == x && rest[i] == t;
      var o := if i < b then i else i + 1;
      assert pos[o] == x && tests[o] == t;
    }
  }

  lemma BestAhead(M: Relation, tests: seq<string>, pos: seq<nat>, c: set<string>, b: nat, x: nat, t: string)
    requires |pos| == |tests| && tests != [] && Ascending(pos) && b == Best(M, tests, c)
    requires StandsFor(tests, pos, x, t) && x != pos[b]
    ensures Gain(M, t, c) < Gain(M, tests[b], c) || (Gain(M, t, c) == Gain(M, tests[b], c) && pos[b] < x)
  {
    hide Best, Gain;
    BestIsFirst(M, tests, c);
    var i :| 0 <= i < |pos| && pos[i] == x && tests[i] == t;
  }

  lemma {:induction false} PlacesAhead(M: Relation, tests: seq<string>, pos: seq<nat>, c: set<string>, k: nat, j: nat)
    requires |pos| == |tests| && Ascending(pos) && k < j < |tests|
    ensures Ahead(M, c, Picks(M, tests, c), Places(M, tests, pos, c), k, j)
    decreases |tests|
  {
    hide Best, Cover, Gain;
    var b := Best(M, tests, c);
    var rest, left, next := Without(tests, b), Without(pos, b), Cover(M, tests[b], c);
    PicksStep(M, tests, c);
    WithoutAscending(pos, b);
    if k == 0 {
      PlacesStand(M, tests, pos, c, j);
      LaterPlace(M, rest, left, next, j - 1, pos, b);
      BestAhead(M, tests, pos, c, b, Places(M, tests, pos, c)[j], Picks(M, tests, c)[j]);
    } else {
      PlacesAhead(M, rest, left, next, k - 1, j - 1);
      CoveredShift(M, c, tests[b], Picks(M, rest, next), k - 1);
    }
  }

  lemma LaterPlace(M: Relation, rest: seq<string>, left: seq<nat>, c: set<string>, j: nat, pos: seq<nat>, b: nat)
    requires |left| == |rest| && j < |rest| && b < |pos| && left == Without(pos, b) && Ascending(pos)
    ensures Places(M, rest, left, c)[j] != pos[b]
  {
    PlacesPermute(M, rest, left, c);
    var p := Places(M, rest, left, c);
    assert p[j] in multiset(p);
    assert p[j] in left;
  }

  ghost function Indices(n: nat): (r: seq<nat>)
    ensures |r| == n && forall i :: 0 <= i < n ==> r[i] == i
  {
    seq(n, i => i)
  }

  lemma DistinctPlaces(M: Relation, tests: seq<string>)
    ensures var p := Places(M, tests, Indices(|tests|), {});
            Distinct(p) && (forall i :: 0 <= i < |p| ==> p[i] < |tests|) && NamesAt(tests, p) == Picks(M, tests, {})
  {
    hide Picks, Places;
    var pos := Indices(|tests|);
    var p, names := Places(M, tests, pos, {}), Picks(M, tests, {});
    PlacesPermute(M, tests, pos, {});
    forall k | 0 <= k < |p| ensures p[k] < |tests| && tests[p[k]] == names[k] {
      PlacesStand(M, tests, pos, {}, k);
    }
    forall k, j | 0 <= k < j < |p| ensures p[k] != p[j] {
      PlacesAhead(M, tests, pos, {}, k, j);
      AheadDiffer(M, names, p, k, j);
    }
  }

  lemma AheadDiffer(M: Relation, names: seq<string>, p: seq<nat>, k: nat, j: nat)
    requires Ahead(M, {}, names, p, k, j)
    ensures p[k] != p[j] || names[k] != names[j]
  {
  }

  /** What additional_stragety returns follows a plan. */
  lemma OrderFollowsPlan(M: Relation, tests: seq<string>, order: seq<nat>) returns (p: seq<nat>)
    requires Ordered(M, tests, order)
    ensures Plan(M, tests, p) && LastPositions(tests, p, order)
  {
    hide Picks, Places, Gain, Adds, CoveredFrom;
    var pos, names := Indices(|tests|), Picks(M, tests, {});
    p := Places(M, tests, pos, {});
    DistinctPlaces(M, tests);
    forall k, j | 0 <= k < j < |p| ensures Beats(M, tests, p, k, j) {
      PlacesAhead(M, tests, pos, {}, k, j);
      AddsIs(M, names, k, names[k]);
      AddsIs(M, names, k, names[j]);
    }
    assert forall k :: 0 <= k < |p| ==> tests[p[k]] == names[k] == tests[order[k]];
  }

  /** additional_stragety, by its result alone: the returned positions are those of the one plan. */
  method Prioritise(r: Ranker, methods: Relation) returns (order: seq<nat>, ghost p: seq<nat>)
    modifies r
    ensures r.testCases == [] && Holds(r.taTmp, old(r.testCases), methods)
    ensures Plan(methods, old(r.testCases), p) && LastPositions(old(r.testCases), p, order)
  {
    hide Plan, LastPositions, Ordered;
    order := r.AdditionalStrategy(methods);
    p := OrderFollowsPlan(methods, old(r.testCases), order);
  }

  lemma AddsIs(M: Relation, names: seq<string>, k: nat, t: string)
    requires k <= |names|
    ensures Adds(M, names, k, t) == Gain(M, t, CoveredFrom(M, {}, names, k))
  {
    SinceIs(M, names, k);
  }

  // ----- a plan is all there is -----

  lemma {:induction false} SincePrefix(M: Relation, a: seq<string>, b: seq<string>, k: nat)
    requires k <= |a| && k <= |b| && a[..k] == b[..k]
    ensures Since(M, a, k) == Since(M, b, k)
  {
    hide UnionOf;
    if k != 0 {
      assert a[..k - 1] == a[..k][..k - 1] == b[..k - 1] && a[k - 1] == a[..k][k - 1] == b[k - 1];
      SincePrefix(M, a, b, k - 1);
      var r := Since(M, a, k - 1);
      assert a[r..k - 1] == a[..k - 1][r..] && b[r..k - 1] == b[..k - 1][r..];
    }
  }

  lemma AddsPrefix(M: Relation, a: seq<string>, b: seq<string>, k: nat, t: string)
    requires k <= |a| && k <= |b| && a[..k] == b[..k]
    ensures Adds(M, a, k, t) == Adds(M, b, k, t)
  {
    SincePrefix(M, a, b, k);
    var r := Since(M, a, k);
    assert a[r..k] == a[..k][r..] && b[r..k] == b[..k][r..];
  }

  lemma Later(p: seq<nat>, q: seq<nat>, k: nat) returns (j: nat)
    requires Distinct(p) && Distinct(q) && |p| == |q| && k < |p| && p[..k] == q[..k] && p[k] != q[k]
    requires (forall i :: 0 <= i < |p| ==> p[i] < |p|) && forall i :: 0 <= i < |q| ==> q[i] < |q|
    ensures k < j < |p| && p[j] == q[k]
  {
    Everywhere(p, q[k]);
    j :| 0 <= j < |p| && p[j] == q[k];
    assert forall i :: 0 <= i < k ==> q[i] == q[..k][i] == p[..k][i] == p[i];
  }

  /** Distinct numbers below their number are all of those numbers. */
  lemma Everywhere(p: seq<nat>, x: nat)
    requires Distinct(p) && (forall i :: 0 <= i < |p| ==> p[i] < |p|) && x < |p|
    ensures x in p
  {
    DistinctSize(p);
    forall y | y in Elems(p) ensures y in Below(|p|) { }
    SubsetSize(Elems(p), Below(|p|));
    assert x in Below(|p|);
  }

  lemma OnePlanStep(M: Relation, tests: seq<string>, p: seq<nat>, q: seq<nat>, k: nat)
    requires Plan(M, tests, p) && Plan(M, tests, q) && k < |p| && p[..k] == q[..k]
    ensures p[k] == q[k]
  {
    hide Adds;
    if p[k] != q[k] {
      var i := Later(p, q, k);
      var j := Later(q, p, k);
      var a, b := NamesAt(tests, p), NamesAt(tests, q);
      forall x | 0 <= x < k ensures a[x] == b[x] { assert p[x] == p[..k][x] == q[..k][x] == q[x]; }
      assert a[..k] == b[..k];
      assert Beats(M, tests, p, k, i) && Beats(M, tests, q, k, j);
      AddsPrefix(M, a, b, k, a[k]);
      AddsPrefix(M, a, b, k, b[k]);
    }
  }

  lemma {:induction false} OnePlanUpTo(M: Relation, tests: seq<string>, p: seq<nat>, q: seq<nat>, k: nat)
    requires Plan(M, tests, p) && Plan(M, tests, q) && k <= |p|
    ensures p[..k] == q[..k]
  {
    hide Plan;
    assert |p| == |tests| == |q| by { PlanSize(M, tests, p); PlanSize(M, tests, q); }
    if k != 0 {
      OnePlanUpTo(M, tests, p, q, k - 1);
      OnePlanStep(M, tests, p, q, k - 1);
      assert p[..k] == p[..k - 1] + [p[k - 1]] && q[..k] == q[..k - 1] + [q[k - 1]];
    }
  }

  lemma PlanSize(M: Relation, tests: seq<string>, p: seq<nat>)
    requires Plan(M, tests, p)
    ensures |p| == |tests|
  {
  }

  lemma OneLast(tests: seq<string>, t: string, i: nat, j: nat)
    requires i < |tests| && j < |tests| && tests[i] == t == tests[j]
    requires (forall x :: i < x < |tests| ==> tests[x] != t) && forall x :: j < x < |tests| ==> tests[x] != t
    ensures i == j
  {
  }

  /** The tests and what they relate to leave only one plan, and so only one result. */
  lemma OneOrder(M: Relation, tests: seq<string>, p: seq<nat>, q: seq<nat>, a: seq<nat>, b: seq<nat>)
    requires Plan(M, tests, p) && LastPositions(tests, p, a) && Plan(M, tests, q) && LastPositions(tests, q, b)
    ensures p == q && a == b
  {
    OnePlanUpTo(M, tests, p, q, |p|);
    hide Beats;
    assert p == p[..|p|] == q[..|p|] == q;
    forall k | 0 <= k < |a| ensures a[k] == b[k] {
      OneLast(tests, tests[p[k]], a[k], b[k]);
    }
  }

  /** As long as every pick but the last adds something, the first k returned tests relate to at least a
      1-(1-1/k)^k share of what any k tests relate to. */
  lemma OrderShare(M: Relation, tests: seq<string>, order: seq<nat>, best: seq<string>, k: nat)
    requires Ordered(M, tests, order) && 0 < k <= |tests| && |best| <= k && forall t :: t in best ==> t in tests
    requires forall i :: 0 <= i < k - 1 ==> !(M(tests[order[i]]) <= UnionOf(M, NamesAt(tests, order)[..i]))
    ensures (GreedyCover.Pow(k, k) - GreedyCover.Pow(k - 1, k)) * |UnionOf(M, best)| <=
            GreedyCover.Pow(k, k) * |UnionOf(M, NamesAt(tests, order)[..k])|
  {
    hide Picks, Gain, UnionOf, GreedyCover.Pow;
    var names := NamesAt(tests, order);
    NoResetYet(M, names, k - 1);
    ShareBeforeReset(M, tests, best, k);
  }

  lemma {:induction false} NoResetYet(M: Relation, names: seq<string>, k: nat)
    requires k <= |names| && forall i :: 0 <= i < k ==> !(M(names[i]) <= UnionOf(M, names[..i]))
    ensures SinceReset(M, names, k) == 0 && forall i :: 0 <= i < k ==> !Reset(M, names, i)
  {
    hide Gain, UnionOf;
    if k != 0 {
      NoResetYet(M, names, k - 1);
      CoveredIsUnion(M, names, k - 1);
      assert names[0..k - 1] == names[..k - 1];
      NoGain(M, names[k - 1], CoveredAt(M, names, k - 1));
    }
  }
}
