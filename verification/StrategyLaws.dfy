/** What the order of the additional strategy promises. */
module StrategyLaws {

  import opened Collections
  import opened AdditionalStrategy

  lemma {:induction false} PicksPermute(M: Relation, tests: seq<string>, covered: set<string>)
    ensures multiset(Picks(M, tests, covered)) == multiset(tests)
    decreases |tests|
  {
    hide Best, Cover;
    if tests != [] {
      var b := Best(M, tests, covered);
      PicksStep(M, tests, covered);
      PicksPermute(M, Without(tests, b), Cover(M, tests[b], covered));
      WithoutMultiset(tests, b);
    }
  }

  /** What is covered before pick k, starting from c. */
  function CoveredFrom(M: Relation, c: set<string>, names: seq<string>, k: nat): set<string>
    requires k <= |names|
  {
    if k == 0 then c else Cover(M, names[k - 1], CoveredFrom(M, c, names, k - 1))
  }

  function CoveredAt(M: Relation, names: seq<string>, k: nat): set<string>
    requires k <= |names|
  {
    CoveredFrom(M, {}, names, k)
  }

  lemma {:induction false} CoveredShift(M: Relation, c: set<string>, t: string, rest: seq<string>, k: nat)
    requires k <= |rest|
    ensures CoveredFrom(M, c, [t] + rest, k + 1) == CoveredFrom(M, Cover(M, t, c), rest, k)
  {
    hide Cover;
    if 0 < k {
      CoveredShift(M, c, t, rest, k - 1);
    }
  }

  lemma InTests(M: Relation, tests: seq<string>, covered: set<string>, j: nat)
    requires j < |tests|
    ensures Picks(M, tests, covered)[j] in tests
  {
    PicksPermute(M, tests, covered);
    assert Picks(M, tests, covered)[j] in multiset(Picks(M, tests, covered));
  }

  /** Every pick gains at least as much as any later one would have gained in its place. */
  lemma {:induction false} PicksGreedy(M: Relation, tests: seq<string>, c: set<string>, i: nat, j: nat)
    requires i <= j < |tests|
    ensures var names := Picks(M, tests, c);
            Gain(M, names[j], CoveredFrom(M, c, names, i)) <= Gain(M, names[i], CoveredFrom(M, c, names, i))
    decreases |tests|
  {
    hide Best, Cover, Gain;
    var b := Best(M, tests, c);
    PicksStep(M, tests, c);
    if i == 0 {
      InTests(M, tests, c, j);
      BestIsFirst(M, tests, c);
    } else {
      var rest, next := Without(tests, b), Cover(M, tests[b], c);
      PicksGreedy(M, rest, next, i - 1, j - 1);
      CoveredShift(M, c, tests[b], Picks(M, rest, next), i - 1);
    }
  }

  // ----- resets -----

  /** Pick k adds nothing, so what is covered starts afresh after it. */
  predicate Reset(M: Relation, names: seq<string>, k: nat)
    requires k < |names|
  {
    Gain(M, names[k], CoveredAt(M, names, k)) == 0
  }

  /** The first pick after the last reset before pick k. */
  function SinceReset(M: Relation, names: seq<string>, k: nat): (r: nat)
    requires k <= |names|
    ensures r <= k
  {
    if k == 0 then 0 else if Reset(M, names, k - 1) then k else SinceReset(M, names, k - 1)
  }

  lemma {:induction false} SinceResetHolds(M: Relation, names: seq<string>, k: nat)
    requires k <= |names|
    ensures var r := SinceReset(M, names, k);
            && (r == 0 || Reset(M, names, r - 1))
            && (forall i :: r <= i < k ==> !Reset(M, names, i))
  {
    hide Reset;
    if 0 < k && !Reset(M, names, k - 1) {
      SinceResetHolds(M, names, k - 1);
    }
  }

  function UnionOf(M: Relation, names: seq<string>): set<string> {
    set t, m | t in names && m in M(t) :: m
  }

  /** What is covered is the union of the functions of the tests picked since the last reset. */
  lemma {:induction false} CoveredIsUnion(M: Relation, names: seq<string>, k: nat)
    requires k <= |names|
    ensures CoveredAt(M, names, k) == UnionOf(M, names[SinceReset(M, names, k)..k])
  {
    hide Gain;
    var r := SinceReset(M, names, k);
    if r == k {
      assert names[r..k] == [];
    } else {
      CoveredIsUnion(M, names, k - 1);
      assert names[r..k] == names[r..k - 1] + [names[k - 1]];
    }
  }

  lemma {:induction false} CoveredGrows(M: Relation, names: seq<string>, i: nat, j: nat)
    requires i <= j <= |names| && SinceReset(M, names, j) <= i
    ensures CoveredAt(M, names, i) <= CoveredAt(M, names, j)
  {
    hide Gain;
    if i < j {
      CoveredGrows(M, names, i, j - 1);
    }
  }

  lemma GainOver(M: Relation, t: string, c: set<string>, e: set<string>)
    requires c <= e
    ensures Gain(M, t, e) <= Gain(M, t, c)
  {
    GreedyCover.GainShrinks(M(t), c, e);
  }

  /** Between resets the gains are positive and never increase. */
  lemma GainsNeverIncrease(M: Relation, tests: seq<string>, i: nat, j: nat)
    requires i < j < |tests| && SinceReset(M, Picks(M, tests, {}), j) <= i
    ensures var names := Picks(M, tests, {});
            && 0 < Gain(M, names[i], CoveredAt(M, names, i))
            && Gain(M, names[j], CoveredAt(M, names, j)) <= Gain(M, names[i], CoveredAt(M, names, i))
  {
    var names := Picks(M, tests, {});
    hide Gain, Picks;
    SinceResetHolds(M, names, j);
    assert !Reset(M, names, i);
    PicksGreedy(M, tests, {}, i, j);
    CoveredGrows(M, names, i, j);
    GainOver(M, names[j], CoveredAt(M, names, i), CoveredAt(M, names, j));
  }

  /** A reset happens exactly when every remaining test's functions are covered. */
  lemma ResetWhenAllCovered(M: Relation, tests: seq<string>, k: nat)
    requires k < |tests|
    ensures var names := Picks(M, tests, {});
            Reset(M, names, k) <==> forall j :: k <= j < |names| ==> M(names[j]) <= CoveredAt(M, names, k)
  {
    var names := Picks(M, tests, {});
    hide Picks, CoveredAt;
    forall j | k <= j < |names| && Reset(M, names, k) ensures M(names[j]) <= CoveredAt(M, names, k) {
      GreedyAt(M, tests, k, j);
      NoGain(M, names[j], CoveredAt(M, names, k));
    }
    NoGain(M, names[k], CoveredAt(M, names, k));
  }

  lemma GreedyAt(M: Relation, tests: seq<string>, i: nat, j: nat)
    requires i <= j < |tests|
    ensures var names := Picks(M, tests, {});
            Gain(M, names[j], CoveredAt(M, names, i)) <= Gain(M, names[i], CoveredAt(M, names, i))
  {
    PicksGreedy(M, tests, {}, i, j);
  }

  lemma NoGain(M: Relation, t: string, c: set<string>)
    ensures Gain(M, t, c) == 0 <==> M(t) <= c
  {
    if M(t) <= c {
      assert M(t) - c == {};
    } else {
      var m :| m in M(t) && m !in c;
      assert m in M(t) - c;
    }
  }

  // ----- before the first reset -----

  /** Pick i adds something to what is covered before it, starting from c. */
  ghost predicate Gaining(M: Relation, c: set<string>, names: seq<string>, i: nat) {
    i < |names| && Gain(M, names[i], CoveredFrom(M, c, names, i)) != 0
  }

  lemma GainingTail(M: Relation, c: set<string>, t: string, tail: seq<string>, i: nat)
    requires Gaining(M, c, [t] + tail, i + 1)
    ensures Gaining(M, Cover(M, t, c), tail, i)
  {
    CoveredShift(M, c, t, tail, i);
  }

  lemma OrderStep(M: Relation, tests: seq<string>, c: set<string>)
    requires tests != []
    ensures var b := Best(M, tests, c);
            GreedyCover.Order(M, tests, c) ==
            [tests[b]] + GreedyCover.Order(M, Without(tests, b), c + M(tests[b]))
  {
  }

  /** As long as every pick but the last adds something, the picks are those of the plain greedy order. */
  lemma {:induction false} PicksAreGreedy(M: Relation, tests: seq<string>, c: set<string>, k: nat)
    requires k <= |tests|
    requires forall i :: 0 <= i < k - 1 ==> Gaining(M, c, Picks(M, tests, c), i)
    ensures Picks(M, tests, c)[..k] == GreedyCover.Order(M, tests, c)[..k]
    decreases k
  {
    hide Gain, Best, Picks, GreedyCover.Order, Gaining;
    if 0 < k {
      var b := Best(M, tests, c);
      var rest, next := Without(tests, b), Cover(M, tests[b], c);
      var tail := Picks(M, rest, next);
      PicksStep(M, tests, c);
      OrderStep(M, tests, c);
      if 1 < k {
        FirstGains(M, c, tests[b], tail);
        forall i | 0 <= i < k - 2 ensures Gaining(M, next, tail, i) {
          GainingTail(M, c, tests[b], tail, i);
        }
        PicksAreGreedy(M, rest, next, k - 1);
        FirstOf(tests[b], tail, GreedyCover.Order(M, rest, next), k);
      }
    }
  }

  lemma FirstGains(M: Relation, c: set<string>, t: string, tail: seq<string>)
    requires Gaining(M, c, [t] + tail, 0)
    ensures Cover(M, t, c) == c + M(t)
  {
  }

  lemma FirstOf(t: string, a: seq<string>, b: seq<string>, k: nat)
    requires 0 < k && k - 1 <= |a| && k - 1 <= |b| && a[..k - 1] == b[..k - 1]
    ensures ([t] + a)[..k] == ([t] + b)[..k]
  {
    assert ([t] + a)[..k] == [t] + a[..k - 1] && ([t] + b)[..k] == [t] + b[..k - 1];
  }

  /** So up to and with the first reset, the first k picks cover at least a 1-(1-1/k)^k share of what any k tests
      relate to. */
  lemma ShareBeforeReset(M: Relation, tests: seq<string>, best: seq<string>, k: nat)
    requires 0 < k <= |tests| && |best| <= k && forall t :: t in best ==> t in tests
    requires forall i :: 0 <= i < k - 1 ==> !Reset(M, Picks(M, tests, {}), i)
    ensures (GreedyCover.Pow(k, k) - GreedyCover.Pow(k - 1, k)) * |UnionOf(M, best)| <=
            GreedyCover.Pow(k, k) * |UnionOf(M, Picks(M, tests, {})[..k])|
  {
    hide UnionOf, GreedyCover.Covered, GreedyCover.Order, GreedyCover.Pow, Picks, Gain;
    forall i | 0 <= i < k - 1 ensures Gaining(M, {}, Picks(M, tests, {}), i) {
      assert !Reset(M, Picks(M, tests, {}), i);
    }
    PicksAreGreedy(M, tests, {}, k);
    GreedyCover.GreedyShare(M, tests, best, k);
    CoveredByUnion(M, best);
    CoveredByUnion(M, Picks(M, tests, {})[..k]);
  }

  lemma {:induction false} CoveredByUnion(M: Relation, names: seq<string>)
    ensures GreedyCover.Covered(M, names) == UnionOf(M, names)
  {
    if names != [] {
      var front, last := names[..|names| - 1], names[|names| - 1];
      CoveredByUnion(M, front);
      assert names == front + [last];
    }
  }

  // ----- permutation -----

  lemma {:induction false} DistinctOnce(s: seq<string>)
    ensures Distinct(s) <==> forall x :: multiset(s)[x] <= 1
  {
    if s != [] {
      var last := |s| - 1;
      var r := s[..last];
      DistinctOnce(r);
      assert s == r + [s[last]];
      assert multiset(s) == multiset(r) + multiset{s[last]};
      if s[last] in r {
        var i :| 0 <= i < last && r[i] == s[last];
        assert s[i] == s[last];
        assert s[last] in multiset(r) && multiset(s)[s[last]] > 1;
      } else {
        assert multiset(r)[s[last]] == 0;
        assert forall x :: multiset(s)[x] == multiset(r)[x] + (if x == s[last] then 1 else 0);
        assert Distinct(s) <==> Distinct(r) by { AppendDistinct(r, s[last]); }
      }
    }
  }

  /** Positions that are the last of their names repeat exactly where the names do. */
  lemma LastPositionsRepeat(tests: seq<string>, order: seq<nat>)
    requires forall i :: 0 <= i < |order| ==> order[i] < |tests|
    requires forall i, j :: 0 <= i < |order| && order[i] < j < |tests| ==> tests[j] != tests[order[i]]
    ensures Distinct(NamesAt(tests, order)) <==> Distinct(order)
  {
    var names := NamesAt(tests, order);
    forall i, j | 0 <= i < j < |order| ensures names[i] == names[j] <==> order[i] == order[j] {
      assert order[i] < order[j] ==> tests[order[j]] != tests[order[i]];
      assert order[j] < order[i] ==> tests[order[i]] != tests[order[j]];
    }
  }

  /** The returned positions are a permutation of the tests exactly when no name occurs twice. */
  lemma PermutationIffDistinct(M: Relation, tests: seq<string>, order: seq<nat>)
    requires Ordered(M, tests, order)
    ensures Distinct(order) <==> Distinct(tests)
  {
    hide Picks, Distinct, NamesAt;
    PicksPermute(M, tests, {});
    DistinctOnce(NamesAt(tests, order));
    DistinctOnce(tests);
    LastPositionsRepeat(tests, order);
  }
}
