/** Small facts about finite collections that several models share. */
module Collections {

  datatype Option<+T> = None | Some(value: T)

  /** No element occurs twice. */
  ghost predicate Distinct<T>(s: seq<T>) {
    forall i, j :: 0 <= i < j < |s| ==> s[i] != s[j]
  }

  ghost function Elems<T>(s: seq<T>): set<T> {
    set t | t in s
  }

  lemma OneMore<T>(front: seq<T>, t: T)
    requires t !in front
    ensures |Elems(front + [t])| == |Elems(front)| + 1
  {
    assert t !in Elems(front) && Elems(front + [t]) == Elems(front) + {t};
  }

  lemma {:induction false} DistinctSize<T>(s: seq<T>)
    requires Distinct(s)
    ensures |Elems(s)| == |s|
  {
    if s != [] {
      var front, t := s[..|s| - 1], s[|s| - 1];
      DistinctSize(front);
      assert s == front + [t];
      OneMore(front, t);
    }
  }

  lemma AppendDistinct<T>(r: seq<T>, x: T)
    ensures Distinct(r + [x]) <==> Distinct(r) && x !in r
  {
    var s := r + [x];
    assert s[|r|] == x && forall i :: 0 <= i < |r| ==> s[i] == r[i];
    if Distinct(s) {
      forall i, j | 0 <= i < j < |r| ensures r[i] != r[j] { assert s[i] != s[j]; }
    }
  }

  ghost function Below(n: nat): (r: set<nat>)
    ensures |r| == n && forall x: nat :: x in r <==> x < n
  {
    if n == 0 then {} else Below(n - 1) + {n - 1}
  }

  lemma SubsetSize<T>(a: set<T>, b: set<T>)
    requires a <= b
    ensures |a| <= |b|
    ensures |a| == |b| ==> a == b
  {
    assert b == a + (b - a) && |b| == |a| + |b - a|;
  }

  /** The sequence without its element at i. */
  function Without<T>(s: seq<T>, i: nat): (r: seq<T>)
    requires i < |s|
    ensures |r| == |s| - 1
  {
    s[..i] + s[i + 1..]
  }

  lemma WithoutMultiset<T>(s: seq<T>, i: nat)
    requires i < |s|
    ensures multiset(s) == multiset{s[i]} + multiset(Without(s, i))
  {
    assert s == s[..i] + [s[i]] + s[i + 1..];
  }

  /** The first index of the greatest score. */
  function Greatest<T>(score: T -> nat, s: seq<T>): (i: nat)
    requires s != []
    ensures i < |s|
    ensures forall j :: 0 <= j < |s| ==> score(s[j]) <= score(s[i])
    ensures forall j :: 0 <= j < i ==> score(s[j]) < score(s[i])
  {
    if |s| == 1 then 0
    else
      var last := |s| - 1;
      var i := Greatest(score, s[..last]);
      assert forall j :: 0 <= j < last ==> s[..last][j] == s[j];
      if score(s[i]) < score(s[last]) then last else i
  }

  lemma GreatestIs<T>(score: T -> nat, s: seq<T>, i: nat)
    requires i < |s|
    requires forall j :: 0 <= j < |s| ==> score(s[j]) <= score(s[i])
    requires forall j :: 0 <= j < i ==> score(s[j]) < score(s[i])
    ensures Greatest(score, s) == i
  {
  }
}
