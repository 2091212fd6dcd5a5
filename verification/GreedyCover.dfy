/** The additional-coverage order on sets: each pick is the first candidate that adds most to what
    is already covered. */
module GreedyCover {

  import opened Collections

  /** The first index with the greatest gain over base. */
  function Pick<N, P>(L: N -> set<P>, cands: seq<N>, base: set<P>): (i: nat)
    requires cands != []
    ensures i < |cands|
    ensures forall j :: 0 <= j < |cands| ==> |L(cands[j]) - base| <= |L(cands[i]) - base|
    ensures forall j :: 0 <= j < i ==> |L(cands[j]) - base| < |L(cands[i]) - base|
  {
    Greatest(n => |L(n) - base|, cands)
  }

  function Order<N, P>(L: N -> set<P>, cands: seq<N>, base: set<P>): (o: seq<N>)
    ensures |o| == |cands|
    decreases |cands|
  {
    if cands == [] then []
    else
      var i := Pick(L, cands, base);
      [cands[i]] + Order(L, Without(cands, i), base + L(cands[i]))
  }

  function Covered<N, P>(L: N -> set<P>, s: seq<N>): set<P> {
    if s == [] then {} else Covered(L, s[..|s| - 1]) + L(s[|s| - 1])
  }

  function Gain<N, P>(L: N -> set<P>, o: seq<N>, i: nat): nat
    requires i < |o|
  {
    |L(o[i]) - Covered(L, o[..i])|
  }

  /** The order lists every candidate exactly as often as it was given. */
  lemma {:induction false} OrderPermutes<N, P>(L: N -> set<P>, cands: seq<N>, base: set<P>)
    ensures multiset(Order(L, cands, base)) == multiset(cands)
    decreases |cands|
  {
    if cands != [] {
      var i := Pick(L, cands, base);
      OrderPermutes(L, Without(cands, i), base + L(cands[i]));
      WithoutMultiset(cands, i);
    }
  }

  lemma {:induction false} CoveredCons<N, P>(L: N -> set<P>, x: N, s: seq<N>)
    ensures Covered(L, [x] + s) == L(x) + Covered(L, s)
  {
    var t := [x] + s;
    if s == [] {
      assert t[..|t| - 1] == [];
    } else {
      assert t[..|t| - 1] == [x] + s[..|s| - 1];
      CoveredCons(L, x, s[..|s| - 1]);
    }
  }

  lemma {:induction false} CoveredMember<N, P>(L: N -> set<P>, s: seq<N>, i: nat)
    requires i < |s|
    ensures L(s[i]) <= Covered(L, s)
  {
    if i < |s| - 1 { CoveredMember(L, s[..|s| - 1], i); }
  }

  /** At every position the pick gains at least what any candidate at all would gain there. */
  lemma {:induction false} PickIsBest<N, P>(L: N -> set<P>, cands: seq<N>, base: set<P>, i: nat, t: N)
    requires i < |cands| && t in cands
    ensures var o := Order(L, cands, base);
            var c := base + Covered(L, o[..i]);
            |L(t) - c| <= |L(o[i]) - c|
    decreases |cands|
  {
    hide Pick;
    var o := Order(L, cands, base);
    var p := Pick(L, cands, base);
    if i == 0 {
      assert base + Covered(L, o[..0]) == base;
    } else {
      var rest, base' := Without(cands, p), base + L(cands[p]);
      var o' := Order(L, rest, base');
      assert o[..i] == [cands[p]] + o'[..i - 1];
      CoveredCons(L, cands[p], o'[..i - 1]);
      assert base + Covered(L, o[..i]) == base' + Covered(L, o'[..i - 1]);
      if t in rest {
        PickIsBest(L, rest, base', i - 1, t);
      } else {
        WithoutMultiset(cands, p);
        assert t in multiset(cands);
        assert L(t) - (base + Covered(L, o[..i])) == {};
      }
    }
  }

  lemma BestPick<N, P>(L: N -> set<P>, names: seq<N>, i: nat, t: N)
    requires i < |names| && t in names
    ensures var o := Order(L, names, {}); |L(t) - Covered(L, o[..i])| <= Gain(L, o, i)
  {
    var o := Order(L, names, {});
    PickIsBest(L, names, {}, i, t);
    assert {} + Covered(L, o[..i]) == Covered(L, o[..i]);
  }

  lemma GainShrinks<P>(x: set<P>, a: set<P>, b: set<P>)
    requires a <= b
    ensures |x - b| <= |x - a|
  {
    SubsetSize(x - b, x - a);
  }

  /** Marginal gains never increase along the order. */
  lemma GainsNeverIncrease<N, P>(L: N -> set<P>, names: seq<N>, i: nat)
    requires i + 1 < |names|
    ensures var o := Order(L, names, {}); Gain(L, o, i + 1) <= Gain(L, o, i)
  {
    var o := Order(L, names, {});
    OrderPermutes(L, names, {});
    assert o[i + 1] in multiset(o);
    BestPick(L, names, i, o[i + 1]);
    CoveredNext(L, o, i);
    GainShrinks(L(o[i + 1]), Covered(L, o[..i]), Covered(L, o[..i + 1]));
  }

  lemma CoveredNext<N, P>(L: N -> set<P>, o: seq<N>, i: nat)
    requires i < |o|
    ensures Covered(L, o[..i + 1]) == Covered(L, o[..i]) + L(o[i])
  {
    assert o[..i + 1][..i] == o[..i];
  }

  // ----- the share of the optimum covered by a prefix -----

  function Pow(b: nat, e: nat): nat {
    if e == 0 then 1 else b * Pow(b, e - 1)
  }

  lemma UnionSize<P>(a: set<P>, b: set<P>)
    ensures |a + b| <= |a| + |b|
  {
    assert a + b == a + (b - a);
    SubsetSize(b - a, b);
  }

  lemma CoveredLast<N, P>(L: N -> set<P>, s: seq<N>, c: set<P>)
    requires s != []
    ensures |Covered(L, s) - c| <= |Covered(L, s[..|s| - 1]) - c| + |L(s[|s| - 1]) - c|
  {
    var r, t := s[..|s| - 1], s[|s| - 1];
    assert Covered(L, s) - c == (Covered(L, r) - c) + (L(t) - c);
    UnionSize(Covered(L, r) - c, L(t) - c);
  }

  /** Tests that gain at most g each gain together at most g times their number. */
  lemma {:induction false} UnionGain<N, P>(L: N -> set<P>, s: seq<N>, c: set<P>, g: nat)
    requires forall t :: t in s ==> |L(t) - c| <= g
    ensures |Covered(L, s) - c| <= Times(|s|, g)
  {
    if s != [] {
      UnionGain(L, s[..|s| - 1], c, g);
      assert s[|s| - 1] in s;
      CoveredLast(L, s, c);
    }
  }

  function Times(n: nat, g: nat): nat {
    if n == 0 then 0 else Times(n - 1, g) + g
  }

  lemma {:induction false} TimesLe(n: nat, k: nat, g: nat)
    requires n <= k
    ensures Times(n, g) <= k * g
  {
    if n != 0 {
      TimesLe(n - 1, k - 1, g);
      assert k * g == (k - 1) * g + g;
    }
  }

  lemma CoveredStep<N, P>(L: N -> set<P>, o: seq<N>, i: nat)
    requires i < |o|
    ensures |Covered(L, o[..i + 1])| == |Covered(L, o[..i])| + Gain(L, o, i)
  {
    CoveredNext(L, o, i);
    var c := Covered(L, o[..i]);
    assert c + L(o[i]) == c + (L(o[i]) - c);
  }

  lemma SplitSize<P>(a: set<P>, c: set<P>)
    ensures |a| <= |c| + |a - c|
  {
    SubsetSize(a, c + (a - c));
    UnionSize(c, a - c);
  }

  /** What any k tests cover exceeds what is covered by at most k times the next gain. */
  lemma OptimumNear<N, P>(L: N -> set<P>, names: seq<N>, best: seq<N>, k: nat, i: nat)
    requires |best| <= k && (forall t :: t in best ==> t in names) && i < |names|
    ensures var o := Order(L, names, {});
            |Covered(L, best)| <= |Covered(L, o[..i])| + k * Gain(L, o, i)
  {
    var o := Order(L, names, {});
    var c, g := Covered(L, o[..i]), Gain(L, o, i);
    forall t | t in best ensures |L(t) - c| <= g { BestPick(L, names, i, t); }
    UnionGain(L, best, c, g);
    TimesLe(|best|, k, g);
    SplitSize(Covered(L, best), c);
  }

  lemma GapArith(k: nat, opt: int, c: int, g: nat)
    requires 0 < k && opt <= c + k * g
    ensures k * (opt - (c + g)) <= (k - 1) * (opt - c)
  {
    assert k * (opt - (c + g)) == k * (opt - c) - k * g;
    assert (k - 1) * (opt - c) == k * (opt - c) - (opt - c);
  }

  lemma GapStep(a: nat, b: nat, k: nat, gap: int, gap': int, opt: nat)
    requires 0 < k && k * gap' <= (k - 1) * gap && a * gap <= b * opt
    ensures (k * a) * gap' <= ((k - 1) * b) * opt
  {
    MulLe(k * gap', (k - 1) * gap, a);
    MulLe(a * gap, b * opt, k - 1);
    assert (k * a) * gap' == a * (k * gap');
    assert a * ((k - 1) * gap) == (k - 1) * (a * gap);
    assert ((k - 1) * b) * opt == (k - 1) * (b * opt);
  }

  lemma MulLe(x: int, y: int, z: nat)
    requires x <= y
    ensures z * x <= z * y
  {
  }

  /** Each pick closes at least a k-th of the gap to what any k tests cover. */
  lemma {:induction false} GapAfter<N, P>(L: N -> set<P>, names: seq<N>, best: seq<N>, k: nat, i: nat)
    requires 0 < k && |best| <= k && (forall t :: t in best ==> t in names) && i <= |names|
    ensures var o := Order(L, names, {});
            Pow(k, i) * (|Covered(L, best)| - |Covered(L, o[..i])|) <= Pow(k - 1, i) * |Covered(L, best)|
  {
    hide Covered, Order;
    if i == 0 {
      assert Pow(k, 0) == Pow(k - 1, 0) == 1;
    } else {
      var o := Order(L, names, {});
      GapAfter(L, names, best, k, i - 1);
      OptimumNear(L, names, best, k, i - 1);
      CoveredStep(L, o, i - 1);
      var opt, c, g := |Covered(L, best)|, |Covered(L, o[..i - 1])|, Gain(L, o, i - 1);
      GapArith(k, opt, c, g);
      GapStep(Pow(k, i - 1), Pow(k - 1, i - 1), k, opt - c, opt - (c + g), opt);
    }
  }

  lemma ShareArith(p: nat, q: nat, opt: nat, c: int)
    requires p * (opt - c) <= q * opt
    ensures (p - q) * opt <= p * c
  {
    assert p * (opt - c) == p * opt - p * c;
    assert (p - q) * opt == p * opt - q * opt;
  }

  lemma ShareFull(p: nat, q: nat, opt: nat, c: nat)
    requires opt <= c
    ensures (p - q) * opt <= p * c
  {
    MulLe(opt, c, p);
    MulLe(0, opt, q);
    assert (p - q) * opt == p * opt - q * opt;
  }

  /** For every k, the first k picks cover at least a (1 - (1 - 1/k)^k) share of what any k of the
      tests cover together. */
  lemma GreedyShare<N, P>(L: N -> set<P>, names: seq<N>, best: seq<N>, k: nat)
    requires 0 < k && |best| <= k && (forall t :: t in best ==> t in names)
    ensures var o := Order(L, names, {});
            var first := if k <= |o| then o[..k] else o;
            (Pow(k, k) - Pow(k - 1, k)) * |Covered(L, best)| <= Pow(k, k) * |Covered(L, first)|
  {
    hide Pow, Covered, Order;
    var o := Order(L, names, {});
    var opt := |Covered(L, best)|;
    if k <= |o| {
      GapAfter(L, names, best, k, k);
      ShareArith(Pow(k, k), Pow(k - 1, k), opt, |Covered(L, o[..k])|);
    } else {
      AllCovered(L, names, best);
      ShareFull(Pow(k, k), Pow(k - 1, k), opt, |Covered(L, o)|);
    }
  }

  /** The first terms of the binomial of m + 1. */
  lemma {:induction false} PowNext(m: nat, k: nat)
    requires 0 < k
    ensures Pow(m, k) + k * Pow(m, k - 1) <= Pow(m + 1, k)
  {
    if k == 1 {
      assert Pow(m, 1) == m * Pow(m, 0) && Pow(m + 1, 1) == (m + 1) * Pow(m + 1, 0) && Pow(m, 0) == 1 == Pow(m + 1, 0);
    } else {
      PowNext(m, k - 1);
      var a, b, c := Pow(m, k - 1), Pow(m, k - 2), Pow(m + 1, k - 1);
      PowArith(m, k, a, b, c);
    }
  }

  lemma PowArith(m: nat, k: nat, a: nat, b: nat, c: nat)
    requires 2 <= k && a == m * b && a + (k - 1) * b <= c
    ensures m * a + k * a <= (m + 1) * c
  {
    MulLe(a + (k - 1) * b, c, m + 1);
    assert (m + 1) * (a + (k - 1) * b) == m * a + a + (k - 1) * (m * b) + (k - 1) * b;
    assert (k - 1) * (m * b) == (k - 1) * a;
    MulLe(0, b, k - 1);
  }

  lemma {:induction false} PowPositive(b: nat, e: nat)
    requires 0 < b
    ensures 0 < Pow(b, e)
  {
    if e != 0 {
      PowPositive(b, e - 1);
      MulLe(1, Pow(b, e - 1), b);
    }
  }

  /** The share is at least one half for every k. */
  lemma ShareIsHalf(k: nat)
    requires 0 < k
    ensures 0 < Pow(k, k) <= 2 * (Pow(k, k) - Pow(k - 1, k))
  {
    PowPositive(k, k);
    PowNext(k - 1, k);
    MulLe(0, Pow(k - 1, k - 1), 1);
    assert Pow(k - 1, k) == (k - 1) * Pow(k - 1, k - 1);
    assert k * Pow(k - 1, k - 1) == Pow(k - 1, k) + Pow(k - 1, k - 1);
  }

  lemma HalfArith(p: nat, q: int, opt: nat, c: nat)
    requires 0 < p <= 2 * (p - q) && (p - q) * opt <= p * c
    ensures opt <= 2 * c
  {
    MulLe(p, 2 * (p - q), opt);
    assert opt * (2 * (p - q)) == 2 * ((p - q) * opt);
    assert p * (2 * c + 1) == 2 * (p * c) + p;
    if 2 * c < opt {
      MulLe(2 * c + 1, opt, p);
    }
  }

  /** So the first k picks cover at least half of what any k tests cover. */
  lemma GreedyHalf<N, P>(L: N -> set<P>, names: seq<N>, best: seq<N>, k: nat)
    requires 0 < k && |best| <= k && (forall t :: t in best ==> t in names)
    ensures var o := Order(L, names, {});
            |Covered(L, best)| <= 2 * |Covered(L, if k <= |o| then o[..k] else o)|
  {
    hide Pow, Covered, Order;
    var o := Order(L, names, {});
    GreedyShare(L, names, best, k);
    ShareIsHalf(k);
    HalfArith(Pow(k, k), Pow(k - 1, k), |Covered(L, best)|, |Covered(L, if k <= |o| then o[..k] else o)|);
  }

  lemma {:induction false} CoveredWithin<N, P>(L: N -> set<P>, s: seq<N>, o: seq<N>)
    requires forall t :: t in s ==> t in o
    ensures Covered(L, s) <= Covered(L, o)
  {
    if s != [] {
      CoveredWithin(L, s[..|s| - 1], o);
      var t := s[|s| - 1];
      assert t in s;
      var i :| 0 <= i < |o| && o[i] == t;
      CoveredMember(L, o, i);
    }
  }

  lemma AllCovered<N, P>(L: N -> set<P>, names: seq<N>, best: seq<N>)
    requires forall t :: t in best ==> t in names
    ensures |Covered(L, best)| <= |Covered(L, Order(L, names, {}))|
  {
    var o := Order(L, names, {});
    OrderPermutes(L, names, {});
    forall t | t in best ensures t in o {
      assert t in multiset(names);
    }
    CoveredWithin(L, best, o);
    SubsetSize(Covered(L, best), Covered(L, o));
  }

  // ----- removing what everything covers -----

  lemma PickUnique<N, P>(L: N -> set<P>, cands: seq<N>, base: set<P>, i: nat)
    requires i < |cands|
    requires forall j :: 0 <= j < |cands| ==> |L(cands[j]) - base| <= |L(cands[i]) - base|
    requires forall j :: 0 <= j < i ==> |L(cands[j]) - base| < |L(cands[i]) - base|
    ensures Pick(L, cands, base) == i
  {
  }

  lemma {:induction false} SameGainsSameOrder<N, P>(L: N -> set<P>, M: N -> set<P>, cands: seq<N>, base: set<P>,
      d: set<P>)
    requires forall t :: t in cands ==> M(t) == L(t) - d
    ensures Order(L, cands, base + d) == Order(M, cands, base)
    decreases |cands|
  {
    if cands != [] {
      var i := Pick(M, cands, base);
      forall j | 0 <= j < |cands| ensures L(cands[j]) - (base + d) == M(cands[j]) - base {
        assert cands[j] in cands;
      }
      PickUnique(L, cands, base + d, i);
      var c := cands[i];
      assert base + d + L(c) == base + M(c) + d;
      SameGainsSameOrder(L, M, Without(cands, i), base + M(c), d);
    }
  }

  lemma ShiftedGain<P>(l: set<P>, d: set<P>)
    requires d <= l
    ensures |l - {}| == |(l - d) - {}| + |d|
  {
    assert l - {} == (l - d) + d && (l - d) - {} == l - d;
  }

  lemma FirstPick<N, P>(L: N -> set<P>, M: N -> set<P>, names: seq<N>, d: set<P>)
    requires names != [] && forall t :: t in names ==> d <= L(t) && M(t) == L(t) - d
    ensures Pick(L, names, {}) == Pick(M, names, {})
  {
    var i := Pick(M, names, {});
    forall j | 0 <= j < |names| ensures |L(names[j]) - {}| == |M(names[j]) - {}| + |d| {
      assert names[j] in names;
      ShiftedGain(L(names[j]), d);
    }
    PickUnique(L, names, {}, i);
  }

  /** Taking out of every test what all tests cover leaves the greedy order as it was, ties included. */
  lemma OrderIgnoresCommon<N, P>(L: N -> set<P>, M: N -> set<P>, names: seq<N>, d: set<P>)
    requires forall t :: t in names ==> d <= L(t) && M(t) == L(t) - d
    ensures Order(L, names, {}) == Order(M, names, {})
  {
    hide Pick;
    if names != [] {
      var i := Pick(M, names, {});
      FirstPick(L, M, names, d);
      var c := names[i];
      assert c in names;
      assert {} + L(c) == M(c) + d && {} + M(c) == M(c);
      SameGainsSameOrder(L, M, Without(names, i), M(c), d);
    }
  }
}
