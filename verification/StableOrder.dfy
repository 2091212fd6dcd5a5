/** Sorting by a count, greatest first, keeping the given order among equals. */
module StableOrder {

  function Insert<N>(count: N -> nat, x: N, s: seq<N>): seq<N> {
    if s == [] || count(s[0]) <= count(x) then [x] + s else [s[0]] + Insert(count, x, s[1..])
  }

  function Sorted<N>(count: N -> nat, s: seq<N>): seq<N> {
    if s == [] then [] else Insert(count, s[0], Sorted(count, s[1..]))
  }

  /** The elements of one count, in the order in which they stand. */
  ghost function Level<N>(count: N -> nat, s: seq<N>, c: nat): seq<N> {
    if s == [] then [] else (if count(s[0]) == c then [s[0]] else []) + Level(count, s[1..], c)
  }

  lemma {:induction false} LevelHolds<N>(count: N -> nat, s: seq<N>, c: nat, x: N)
    ensures multiset(Level(count, s, c))[x] == if count(x) == c then multiset(s)[x] else 0
  {
    if s != [] {
      LevelHolds(count, s[1..], c, x);
      assert s == [s[0]] + s[1..];
    }
  }

  ghost predicate Descending<N>(count: N -> nat, s: seq<N>) {
    forall i, j :: 0 <= i < j < |s| ==> count(s[j]) <= count(s[i])
  }

  lemma {:induction false} InsertPermutes<N>(count: N -> nat, x: N, s: seq<N>)
    ensures multiset(Insert(count, x, s)) == multiset{x} + multiset(s)
  {
    if !(s == [] || count(s[0]) <= count(x)) {
      InsertPermutes(count, x, s[1..]);
      assert s == [s[0]] + s[1..];
    }
  }

  lemma {:induction false} InsertDescends<N>(count: N -> nat, x: N, s: seq<N>)
    requires Descending(count, s)
    ensures Descending(count, Insert(count, x, s))
  {
    if !(s == [] || count(s[0]) <= count(x)) {
      var r := Insert(count, x, s[1..]);
      InsertDescends(count, x, s[1..]);
      InsertPermutes(count, x, s[1..]);
      forall j | 0 <= j < |r| ensures count(r[j]) <= count(s[0]) {
        assert r[j] in multiset(r);
        assert r[j] == x || r[j] in s[1..];
      }
    }
  }

  lemma {:induction false} InsertLevel<N>(count: N -> nat, x: N, s: seq<N>, c: nat)
    ensures Level(count, Insert(count, x, s), c) == Level(count, [x] + s, c)
  {
    assert ([x] + s)[1..] == s;
    if !(s == [] || count(s[0]) <= count(x)) {
      var r := Insert(count, x, s[1..]);
      InsertLevel(count, x, s[1..], c);
      assert ([s[0]] + r)[1..] == r && ([x] + s[1..])[1..] == s[1..];
    }
  }

  /** The order is a permutation, descends, and keeps every group of equal counts in the given order. */
  lemma {:induction false} SortedOk<N>(count: N -> nat, s: seq<N>)
    ensures Descending(count, Sorted(count, s)) && multiset(Sorted(count, s)) == multiset(s)
    ensures forall c :: Level(count, Sorted(count, s), c) == Level(count, s, c)
  {
    if s != [] {
      SortedOk(count, s[1..]);
      var t := Sorted(count, s[1..]);
      InsertPermutes(count, s[0], t);
      InsertDescends(count, s[0], t);
      assert s == [s[0]] + s[1..];
      assert ([s[0]] + t)[1..] == t;
      forall c ensures Level(count, Sorted(count, s), c) == Level(count, s, c) {
        InsertLevel(count, s[0], t, c);
        assert Level(count, t, c) == Level(count, s[1..], c);
      }
    }
  }

  lemma {:induction false} InsertSame<N>(f: N -> nat, g: N -> nat, x: N, s: seq<N>)
    requires forall y :: y in s ==> (f(y) <= f(x) <==> g(y) <= g(x))
    ensures Insert(f, x, s) == Insert(g, x, s)
  {
    if s != [] {
      assert s[0] in s;
      InsertSame(f, g, x, s[1..]);
    }
  }

  /** Counts that compare alike give the same order. */
  lemma {:induction false} SameComparisonsSameOrder<N>(f: N -> nat, g: N -> nat, s: seq<N>)
    requires forall x, y :: x in s && y in s ==> (f(x) <= f(y) <==> g(x) <= g(y))
    ensures Sorted(f, s) == Sorted(g, s)
  {
    if s != [] {
      SameComparisonsSameOrder(f, g, s[1..]);
      SortedOk(f, s[1..]);
      forall y | y in Sorted(f, s[1..]) ensures y in s {
        assert y in multiset(s[1..]);
      }
      assert s[0] in s;
      InsertSame(f, g, s[0], Sorted(f, s[1..]));
    }
  }
}
