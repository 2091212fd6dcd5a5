/** The average percentage of faults detected by an order of tests. */
module Apfd {

  import opened Collections

  function Hit<T(==)>(faults: seq<T>, t: T): nat {
    if t in faults then 1 else 0
  }

  /** How many positions of the order hold a fault. */
  function Hits<T(==)>(faults: seq<T>, order: seq<T>): nat {
    if order == [] then 0 else Hits(faults, order[..|order| - 1]) + Hit(faults, order[|order| - 1])
  }

  /** The sum of those positions, counted from one. */
  function Positions<T(==)>(faults: seq<T>, order: seq<T>): nat {
    if order == [] then 0
    else Positions(faults, order[..|order| - 1]) + |order| * Hit(faults, order[|order| - 1])
  }

  /** The measure: one half when there are no faults or no tests. */
  function Score<T(==)>(faults: seq<T>, order: seq<T>): real {
    if faults == [] || order == [] then 0.5
    else 1.0 - Positions(faults, order) as real / (|faults| * |order|) as real + 1.0 / (2 * |order|) as real
  }

  /** APFD, over exact reals. */
  method APFD<T(==)>(faults: seq<T>, order: seq<T>) returns (res: real)
    ensures res == Score(faults, order)
    ensures |faults| == 0 || |order| == 0 ==> res == 0.5
    ensures |faults| != 0 && |order| != 0 ==> Exact(res, Positions(faults, order), |faults|, |order|)
  {
    hide Exact;
    if |faults| == 0 || |order| == 0 {
      return 0.5;
    }
    res := 0.0;
    for i := 0 to |order|
      invariant res == Positions(faults, order[..i]) as real
    {
      assert order[..i + 1][..i] == order[..i];
      if order[i] in faults {
        res := res + (i + 1) as real;
      }
    }
    assert order[..|order|] == order;
    res := res / (|faults| * |order|) as real;
    res := 1.0 - res;
    res := res + 1.0 / (2 * |order|) as real;
    Scale(Positions(faults, order), |faults|, |order|);
  }

  // ----- sums of positions -----

  lemma {:induction false} HitsAtMost<T>(faults: seq<T>, order: seq<T>)
    ensures Hits(faults, order) <= |order|
  {
    if order != [] {
      HitsAtMost(faults, order[..|order| - 1]);
    }
  }

  ghost predicate First<T>(faults: seq<T>, order: seq<T>, h: nat) {
    forall i :: 0 <= i < |order| ==> (order[i] in faults <==> i < h)
  }

  lemma LowerStep(h: int, n: int, s: int)
    requires 0 <= h < n && h * (h + 1) <= 2 * s
    ensures (h + 1) * (h + 2) <= 2 * (s + n)
    ensures (h + 1) * (h + 2) == 2 * (s + n) <==> h * (h + 1) == 2 * s && h + 1 == n
  {
    assert (h + 1) * (h + 2) == h * (h + 1) + 2 * (h + 1);
  }

  /** h faults cost least in the first h places, and only there. */
  lemma {:induction false} LeastPositions<T>(faults: seq<T>, order: seq<T>)
    ensures var h, s := Hits(faults, order), Positions(faults, order);
            h * (h + 1) <= 2 * s && (h * (h + 1) == 2 * s <==> First(faults, order, h))
  {
    if order != [] {
      var front, t := order[..|order| - 1], order[|order| - 1];
      var h, s := Hits(faults, front), Positions(faults, front);
      assert order == front + [t];
      LeastPositions(faults, front);
      HitsAtMost(faults, front);
      if t in faults {
        LowerStep(h, |order|, s);
        assert First(faults, order, h + 1) <==> First(faults, front, h) && h + 1 == |order| by {
          FirstAppend(faults, front, t, h);
        }
      } else {
        assert First(faults, order, h) <==> First(faults, front, h) by {
          FirstAppend(faults, front, t, h);
        }
      }
    }
  }

  lemma FirstAppend<T>(faults: seq<T>, front: seq<T>, t: T, h: nat)
    requires h == Hits(faults, front) <= |front|
    ensures t in faults ==> (First(faults, front + [t], h + 1) <==> First(faults, front, h) && h == |front|)
    ensures t !in faults ==> (First(faults, front + [t], h) <==> First(faults, front, h))
  {
    var order := front + [t];
    assert order[|front|] == t && forall i :: 0 <= i < |front| ==> order[i] == front[i];
    if First(faults, order, if t in faults then h + 1 else h) {
      forall i | 0 <= i < |front| ensures front[i] in faults <==> i < h { assert order[i] == front[i]; }
    }
    if First(faults, front, h) && (t in faults ==> h == |front|) {
      forall i | 0 <= i < |order| ensures order[i] in faults <==> i < if t in faults then h + 1 else h {
        assert i < |front| ==> order[i] == front[i];
      }
    }
  }

  // ----- reversal -----

  function Reverse<T>(order: seq<T>): (r: seq<T>)
    ensures |r| == |order| && forall i :: 0 <= i < |r| ==> r[i] == order[|order| - 1 - i]
  {
    if order == [] then [] else [order[|order| - 1]] + Reverse(order[..|order| - 1])
  }

  lemma {:induction false} Prepend<T>(faults: seq<T>, t: T, order: seq<T>)
    ensures Hits(faults, [t] + order) == Hit(faults, t) + Hits(faults, order)
    ensures Positions(faults, [t] + order) == Hit(faults, t) + Positions(faults, order) + Hits(faults, order)
  {
    var all := [t] + order;
    if order == [] {
      assert all[..0] == [] && all[0] == t;
    } else {
      var front := order[..|order| - 1];
      assert all[..|all| - 1] == [t] + front;
      Prepend(faults, t, front);
    }
  }

  lemma ReverseStep(h: int, n: int, s: int, hit: int)
    requires 0 <= hit <= 1
    ensures hit + (h * n - s) + h == (h + hit) * (n + 1) - (s + n * hit)
  {
  }

  /** A fault at position i is at position n + 1 - i of the reverse. */
  lemma {:induction false} ReversePositions<T>(faults: seq<T>, order: seq<T>)
    ensures Hits(faults, Reverse(order)) == Hits(faults, order)
    ensures Positions(faults, Reverse(order)) == Hits(faults, order) * (|order| + 1) - Positions(faults, order)
  {
    if order != [] {
      var front, t := order[..|order| - 1], order[|order| - 1];
      ReversePositions(faults, front);
      Prepend(faults, t, Reverse(front));
      ReverseStep(Hits(faults, front), |order|, Positions(faults, front), Hit(faults, t));
    }
  }

  // ----- counting -----

  lemma CommonStep<T>(faults: seq<T>, front: seq<T>, t: T)
    requires t !in front
    ensures |Elems(front + [t]) * Elems(faults)| == |Elems(front) * Elems(faults)| + Hit(faults, t)
  {
    var common := Elems(front) * Elems(faults);
    if t in faults {
      assert t !in common && Elems(front + [t]) * Elems(faults) == common + {t};
    } else {
      assert Elems(front + [t]) * Elems(faults) == common;
    }
  }

  lemma {:induction false} HitsAreCommon<T>(faults: seq<T>, order: seq<T>)
    requires Distinct(order)
    ensures Hits(faults, order) == |Elems(order) * Elems(faults)|
  {
    if order == [] {
      assert Elems(order) * Elems(faults) == {};
    } else {
      var front, t := order[..|order| - 1], order[|order| - 1];
      HitsAreCommon(faults, front);
      assert order == front + [t];
      assert t !in front;
      CommonStep(faults, front, t);
    }
  }

  /** Distinct faults that are all in a repeat-free order are each hit once. */
  lemma EachHitOnce<T>(faults: seq<T>, order: seq<T>)
    requires Distinct(order) && Distinct(faults) && forall f :: f in faults ==> f in order
    ensures Hits(faults, order) == |faults|
  {
    HitsAreCommon(faults, order);
    DistinctSize(faults);
    assert Elems(order) * Elems(faults) == Elems(faults);
  }

  // ----- the measure -----

  lemma Clear(s: real, m: real, n: real)
    requires 0.0 < m && 0.0 < n
    ensures (1.0 - s / (m * n) + 1.0 / (2.0 * n)) * (2.0 * m * n) == 2.0 * m * n - 2.0 * s + m
  {
    var q, w := s / (m * n), 1.0 / (2.0 * n);
    assert q * (m * n) == s;
    assert w * (2.0 * n) == 1.0;
    assert w * (2.0 * m * n) == m * (w * (2.0 * n));
    assert q * (2.0 * m * n) == 2.0 * (q * (m * n));
  }

  /** x is the measure of m faults with position sum s in n tests, without the fractions. */
  ghost predicate Exact(x: real, s: int, m: int, n: int) {
    x * (2 * m * n) as real == (2 * m * n - 2 * s + m) as real
  }

  lemma Scale(s: int, m: int, n: int)
    requires 0 < m && 0 < n
    ensures 0 < m * n && Exact(1.0 - s as real / (m * n) as real + 1.0 / (2 * n) as real, s, m, n)
  {
    var a, b := m as real, n as real;
    assert (m * n) as real == a * b;
    assert (2 * m * n) as real == 2.0 * a * b by { assert 2 * m * n == 2 * (m * n); }
    Clear(s as real, a, b);
  }

  lemma Scaled<T>(faults: seq<T>, order: seq<T>)
    requires faults != [] && order != []
    ensures Exact(Score(faults, order), Positions(faults, order), |faults|, |order|)
  {
    hide Positions, Exact;
    Scale(Positions(faults, order), |faults|, |order|);
  }

  lemma Cancel(x: real, y: real, c: real)
    requires 0.0 < c
    ensures x <= y <==> x * c <= y * c
    ensures x == y <==> x * c == y * c
  {
    assert (y - x) * c == y * c - x * c;
  }

  /** The measure of an order and that of its reverse add up to one exactly when there are as many
      fault positions as faults. */
  lemma ReverseLaw<T>(faults: seq<T>, order: seq<T>)
    requires faults != [] && order != []
    ensures Score(faults, order) + Score(faults, Reverse(order)) == 1.0 <==> Hits(faults, order) == |faults|
  {
    hide Score, Positions, Hits, Exact, Reverse;
    var m, n, h := |faults|, |order|, Hits(faults, order);
    Scaled(faults, order);
    Scaled(faults, Reverse(order));
    ReversePositions(faults, order);
    SumOfBoth(Score(faults, order), Score(faults, Reverse(order)), m, n, h, Positions(faults, order));
  }

  lemma SumOfBoth(x: real, y: real, m: int, n: int, h: int, s: int)
    requires 0 < m && 0 < n
    requires Exact(x, s, m, n) && Exact(y, h * (n + 1) - s, m, n)
    ensures x + y == 1.0 <==> h == m
  {
    var c := (2 * m * n) as real;
    assert 0 < m * n;
    assert (x + y) * c == x * c + y * c;
    Cancel(x + y, 1.0, c);
    assert x + y == 1.0 <==> 2 * m * n + 2 * m == 2 * h * (n + 1);
    assert 2 * m * n + 2 * m == 2 * (m * (n + 1));
    assert 2 * h * (n + 1) == 2 * (h * (n + 1));
    Factor(m, h, n + 1);
  }

  lemma Factor(a: int, b: int, c: int)
    requires 0 < c
    ensures a * c == b * c <==> a == b
  {
    assert (a - b) * c == a * c - b * c;
  }

  lemma Half(m: int, n: int)
    requires 0 < m && 0 < n
    ensures m as real / (2 * n) as real * (2 * m * n) as real == (m * m) as real
  {
    var q := m as real / (2 * n) as real;
    assert q * (2 * n) as real == m as real;
    assert (2 * m * n) as real == (2 * n) as real * m as real;
    assert q * ((2 * n) as real * m as real) == q * (2 * n) as real * m as real;
  }

  lemma UpperBound(x: real, m: int, n: int, s: int)
    requires 0 < m && 0 < n && m * (m + 1) <= 2 * s
    requires Exact(x, s, m, n)
    ensures x <= 1.0 - m as real / (2 * n) as real
    ensures x == 1.0 - m as real / (2 * n) as real <==> m * (m + 1) == 2 * s
  {
    assert 0 < m * n;
    Complement(m, n);
    assert m * (m + 1) == m * m + m;
    Compare(x, 1.0 - m as real / (2 * n) as real, (2 * m * n) as real, 2 * m * n - 2 * s + m, 2 * m * n - m * m);
  }

  lemma Complement(m: int, n: int)
    requires 0 < m && 0 < n
    ensures (1.0 - m as real / (2 * n) as real) * (2 * m * n) as real == (2 * m * n - m * m) as real
  {
    var q, c := m as real / (2 * n) as real, (2 * m * n) as real;
    Half(m, n);
    assert (1.0 - q) * c == c - q * c;
  }

  lemma Compare(x: real, y: real, c: real, a: int, b: int)
    requires 0.0 < c && x * c == a as real && y * c == b as real
    ensures (x <= y <==> a <= b) && (x == y <==> a == b)
  {
    Cancel(x, y, c);
  }

  /** The exact range of the measure for m distinct faults in a repeat-free order of n tests: at most
      1 - m/2n, reached exactly when the faults come first; at least m/2n, reached exactly when they come last. */
  lemma Range<T>(faults: seq<T>, order: seq<T>)
    requires faults != [] && Distinct(order) && Distinct(faults) && forall f :: f in faults ==> f in order
    ensures order != []
    ensures var x, q := Score(faults, order), |faults| as real / (2 * |order|) as real;
            && q <= x <= 1.0 - q
            && (x == 1.0 - q <==> First(faults, order, |faults|))
            && (x == q <==> First(faults, Reverse(order), |faults|))
    ensures Score(faults, order) + Score(faults, Reverse(order)) == 1.0
  {
    hide Score, Positions, Hits, Exact, Reverse, First;
    assert faults[0] in faults && faults[0] in order;
    EachHitOnce(faults, order);
    ReverseLaw(faults, order);
    ReversePositions(faults, order);
    LeastPositions(faults, order);
    LeastPositions(faults, Reverse(order));
    Scaled(faults, order);
    Scaled(faults, Reverse(order));
    UpperBound(Score(faults, order), |faults|, |order|, Positions(faults, order));
    UpperBound(Score(faults, Reverse(order)), |faults|, |order|, Positions(faults, Reverse(order)));
  }
}
