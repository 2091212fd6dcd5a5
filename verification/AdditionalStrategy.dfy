/** Additional greedy prioritisation over related kernel functions, starting afresh whenever the
    remaining tests add nothing. */
module AdditionalStrategy {

  import opened Collections
  import GreedyCover

  type Cache = map<string, set<string>>

  /** The kernel functions each test relates to. */
  type Relation = string -> set<string>

  /** How many functions the test adds to those covered. */
  function Gain(M: Relation, t: string, covered: set<string>): nat {
    |M(t) - covered|
  }

  /** The first test of the greatest gain. */
  function Best(M: Relation, tests: seq<string>, covered: set<string>): (b: nat)
    requires tests != []
    ensures b < |tests|
  {
    GreedyCover.Pick(M, tests, covered)
  }

  lemma BestIsFirst(M: Relation, tests: seq<string>, covered: set<string>)
    requires tests != []
    ensures var b := Best(M, tests, covered);
            && (forall i :: 0 <= i < |tests| ==> Gain(M, tests[i], covered) <= Gain(M, tests[b], covered))
            && (forall i :: 0 <= i < b ==> Gain(M, tests[i], covered) < Gain(M, tests[b], covered))
  {
  }

  lemma BestIs(M: Relation, tests: seq<string>, covered: set<string>, b: nat)
    requires b < |tests|
    requires forall i :: 0 <= i < |tests| ==> Gain(M, tests[i], covered) <= Gain(M, tests[b], covered)
    requires forall i :: 0 <= i < b ==> Gain(M, tests[i], covered) < Gain(M, tests[b], covered)
    ensures Best(M, tests, covered) == b
  {
    GreedyCover.PickUnique(M, tests, covered, b);
  }

  /** What counts as covered after picking t: nothing, if t added nothing. */
  function Cover(M: Relation, t: string, covered: set<string>): set<string> {
    if Gain(M, t, covered) == 0 then {} else covered + M(t)
  }

  /** The picks, in order. */
  function Picks(M: Relation, tests: seq<string>, covered: set<string>): (r: seq<string>)
    ensures |r| == |tests|
    decreases |tests|
  {
    if tests == [] then []
    else
      var b := Best(M, tests, covered);
      [tests[b]] + Picks(M, Without(tests, b), Cover(M, tests[b], covered))
  }

  lemma PicksStep(M: Relation, tests: seq<string>, covered: set<string>)
    requires tests != []
    ensures var b := Best(M, tests, covered);
            && tests[b] in tests && (forall t :: t in Without(tests, b) ==> t in tests)
            && Picks(M, tests, covered) == [tests[b]] + Picks(M, Without(tests, b), Cover(M, tests[b], covered))
  {
  }

  // ----- the loop -----

  /** The last index of each name. */
  function IndexMap(tests: seq<string>): (m: map<string, nat>)
    ensures forall t :: t in m <==> t in tests
    ensures forall t :: t in m ==> m[t] < |tests| && tests[m[t]] == t && forall i :: m[t] < i < |tests| ==>
            tests[i] != t
  {
    if tests == [] then map[]
    else
      var last := |tests| - 1;
      assert tests == tests[..last] + [tests[last]];
      IndexMap(tests[..last])[tests[last] := last]
  }

  /** The cache holds what each of the tests relates to. */
  ghost predicate Holds(ta: Cache, tests: seq<string>, M: Relation) {
    forall t :: t in tests ==> t in ta && ta[t] == M(t)
  }

  class Ranker {
    var taTmp: Cache
    var testCases: seq<string>

    constructor (tests: seq<string>)
      ensures taTmp == map[] && testCases == tests
    {
      taTmp, testCases := map[], tests;
    }

    /** One scan of the remaining tests for the first of greatest gain. */
    method Scan(covered: set<string>, ghost M: Relation) returns (maxTA: int, best: string)
      requires testCases != [] && Holds(taTmp, testCases, M)
      ensures best == testCases[Best(M, testCases, covered)] && maxTA == Gain(M, best, covered)
    {
      hide Best;
      maxTA, best := -1, testCases[0];
      ghost var b := 0;
      for i := 0 to |testCases|
        invariant i == 0 ==> maxTA == -1
        invariant 0 < i ==> b < i && best == testCases[b] && maxTA == Gain(M, best, covered)
        invariant forall j :: 0 <= j < i ==> Gain(M, testCases[j], covered) <= maxTA
        invariant 0 < i ==> forall j :: 0 <= j < b ==> Gain(M, testCases[j], covered) < maxTA
      {
        var additional := taTmp[testCases[i]] - covered;
        if |additional| > maxTA {
          maxTA, best := |additional|, testCases[i];
          b := i;
        }
      }
      BestIs(M, testCases, covered, b);
    }

    /** list.remove: drops the first occurrence. */
    method Remove(t: string)
      requires t in testCases
      modifies this`testCases
      ensures exists i :: FirstAt(old(testCases), i, t) && testCases == Without(old(testCases), i)
    {
      var i := 0;
      while testCases[i] != t
        invariant i < |testCases| && t in testCases[i..] && forall j :: 0 <= j < i ==> testCases[j] != t
        decreases |testCases| - i
      {
        i := i + 1;
      }
      assert FirstAt(testCases, i, t);
      testCases := Without(testCases, i);
    }

    method FillCache(methods: Relation)
      modifies this`taTmp
      ensures Holds(taTmp, testCases, methods)
      ensures forall t :: t in taTmp <==> t in old(taTmp) || t in testCases
      ensures forall t :: t in old(taTmp) && t !in testCases ==> taTmp[t] == old(taTmp)[t]
    {
      for i := 0 to |testCases|
        invariant Holds(taTmp, testCases[..i], methods)
        invariant forall t :: t in taTmp <==> t in old(taTmp) || t in testCases[..i]
        invariant forall t :: t in old(taTmp) && t !in testCases[..i] ==> taTmp[t] == old(taTmp)[t]
      {
        assert testCases[..i + 1] == testCases[..i] + [testCases[i]];
        taTmp := taTmp[testCases[i] := methods(testCases[i])];
      }
      assert testCases[..|testCases|] == testCases;
    }

    /** One pick: scan, reset or extend what is covered, and remove the picked test. */
    method PickNext(covered: set<string>, ghost M: Relation) returns (best: string, next: set<string>)
      requires testCases != [] && Holds(taTmp, testCases, M)
      modifies this`testCases
      ensures var b := Best(M, old(testCases), covered);
              && best == old(testCases)[b] && testCases == Without(old(testCases), b)
              && next == Cover(M, best, covered)
    {
      hide Best, Gain;
      var maxTA;
      maxTA, best := Scan(covered, M);
      if maxTA == 0 {
        next := {};
      } else {
        next := covered + taTmp[best];
      }
      ghost var before := testCases;
      Remove(best);
      FirstIsBest(M, before, covered, testCases);
    }

    /** additional_stragety. Empties the list it was given and leaves the cache filled. */
    method AdditionalStrategy(methods: Relation) returns (order: seq<nat>)
      modifies this
      ensures testCases == [] && Holds(taTmp, old(testCases), methods)
      ensures forall t :: t in taTmp <==> t in old(taTmp) || t in old(testCases)
      ensures forall t :: t in old(taTmp) && t !in old(testCases) ==> taTmp[t] == old(taTmp)[t]
      ensures Ordered(methods, old(testCases), order)
    {
      hide Best, Gain, Cover, Picks, IndexMap;
      var all := testCases;
      var index := IndexMap(all);
      FillCache(methods);
      ghost var ta := taTmp;
      ghost var names: seq<string> := [];
      var covered: set<string> := {};
      order := [];
      var size := |all|;
      while size > 0
        invariant taTmp == ta && size == |testCases| && |names| + size == |all|
        invariant forall t :: t in testCases || t in names ==> t in all
        invariant Picks(methods, all, {}) == names + Picks(methods, testCases, covered)
        invariant |order| == |names| && forall i :: 0 <= i < |order| ==> order[i] == index[names[i]]
      {
        PicksStep(methods, testCases, covered);
        var best, next := PickNext(covered, methods);
        assert Picks(methods, all, {}) == names + [best] + Picks(methods, testCases, next);
        order := order + [index[best]];
        names, covered, size := names + [best], next, size - 1;
      }
      assert Picks(methods, all, {}) == names;
      OrderedBy(methods, all, names, order);
    }
  }

  predicate FirstAt(tests: seq<string>, i: nat, t: string) {
    i < |tests| && tests[i] == t && forall j :: 0 <= j < i ==> tests[j] != t
  }

  /** The positions returned: those of the picks, taking for each name its last position. */
  ghost predicate Ordered(M: Relation, tests: seq<string>, order: seq<nat>) {
    && |order| == |tests|
    && (forall i :: 0 <= i < |order| ==> order[i] < |tests|)
    && NamesAt(tests, order) == Picks(M, tests, {})
    && forall i, j :: 0 <= i < |order| && order[i] < j < |tests| ==> tests[j] != tests[order[i]]
  }

  function NamesAt(tests: seq<string>, order: seq<nat>): (r: seq<string>)
    requires forall i :: 0 <= i < |order| ==> order[i] < |tests|
    ensures |r| == |order| && forall i :: 0 <= i < |r| ==> r[i] == tests[order[i]]
  {
    seq(|order|, i requires 0 <= i < |order| => tests[order[i]])
  }

  /** Removing the first test of that name removes the chosen one. */
  lemma FirstIsBest(M: Relation, tests: seq<string>, covered: set<string>, rest: seq<string>)
    requires tests != []
    requires exists i :: FirstAt(tests, i, tests[Best(M, tests, covered)]) && rest == Without(tests, i)
    ensures rest == Without(tests, Best(M, tests, covered))
  {
    hide Gain;
    var b := Best(M, tests, covered);
    BestIsFirst(M, tests, covered);
    var i :| FirstAt(tests, i, tests[b]) && rest == Without(tests, i);
    assert i == b;
  }

  lemma OrderedBy(M: Relation, tests: seq<string>, names: seq<string>, order: seq<nat>)
    requires names == Picks(M, tests, {}) && |order| == |names| && forall t :: t in names ==> t in tests
    requires forall i :: 0 <= i < |order| ==> names[i] in IndexMap(tests) && order[i] == IndexMap(tests)[names[i]]
    ensures Ordered(M, tests, order)
  {
    hide Picks, IndexMap;
    assert NamesAt(tests, order) == names;
  }
}
