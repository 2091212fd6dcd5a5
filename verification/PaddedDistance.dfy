/** Distances that compare position by position after padding the shorter string with NUL characters,
    and how they compare with the edit distance. */
module PaddedDistance {

  import opened EditDistance

  const NUL: char := '\0'

  function At(s: string, i: nat): char {
    if i < |s| then s[i] else NUL
  }

  function Longest(s: string, t: string): nat {
    if |s| < |t| then |t| else |s|
  }

  function Gap(a: char, b: char): nat {
    if a as int <= b as int then b as int - a as int else a as int - b as int
  }

  /** Differing positions among the first n. */
  function Mismatches(s: string, t: string, n: nat): nat {
    if n == 0 then 0 else Mismatches(s, t, n - 1) + Cost(At(s, n - 1), At(t, n - 1))
  }

  /** Sum of the code-point gaps over the first n positions. */
  function Gaps(s: string, t: string, n: nat): nat {
    if n == 0 then 0 else Gaps(s, t, n - 1) + Gap(At(s, n - 1), At(t, n - 1))
  }

  function Hamming(s: string, t: string): nat {
    Mismatches(s, t, Longest(s, t))
  }

  function Manhattan(s: string, t: string): nat {
    Gaps(s, t, Longest(s, t))
  }

  /** s padded with NULs to length n. */
  method Padded(s: string, n: nat) returns (r: string)
    requires |s| <= n
    ensures |r| == n && s <= r && forall i :: |s| <= i < n ==> r[i] == NUL
  {
    r := s;
    while |r| < n
      invariant |s| <= |r| <= n && s <= r && forall i :: |s| <= i < |r| ==> r[i] == NUL
    {
      r := r + [NUL];
    }
  }

  method PadBoth(s1: string, s2: string) returns (a: string, b: string)
    ensures |a| == |b| == Longest(s1, s2)
    ensures forall i :: 0 <= i < |a| ==> a[i] == At(s1, i) && b[i] == At(s2, i)
  {
    a, b := s1, s2;
    if |s1| < |s2| {
      a := Padded(s1, |s2|);
    } else if |s1| > |s2| {
      b := Padded(s2, |s1|);
    }
  }

  /** hanming_distance. */
  method HammingDistance(s1: string, s2: string) returns (r: nat)
    ensures r == Hamming(s1, s2)
  {
    var a, b := PadBoth(s1, s2);
    r := 0;
    for i := 0 to |a|
      invariant r == Mismatches(s1, s2, i)
    {
      if a[i] != b[i] {
        r := r + 1;
      }
    }
  }

  /** manhattan_string_distance. */
  method ManhattanDistance(s1: string, s2: string) returns (r: nat)
    ensures r == Manhattan(s1, s2)
  {
    var a, b := PadBoth(s1, s2);
    r := 0;
    for i := 0 to |a|
      invariant r == Gaps(s1, s2, i)
    {
      r := r + Gap(a[i], b[i]);
    }
  }

  // ----- what the two sums count -----

  /** The code point at a position of a string that is padded with zeros. */
  ghost function Code(s: string, i: nat): nat {
    if i < |s| then s[i] as int else 0
  }

  /** The positions below n at which the padded strings differ. */
  ghost function Differing(s: string, t: string, n: nat): set<nat> {
    set i: nat | i < n && Code(s, i) != Code(t, i)
  }

  /** The code points from one up to the other. */
  ghost function Interval(a: nat, b: nat): (r: set<nat>)
    ensures |r| == (if a <= b then b - a else a - b) && forall v: nat :: v in r <==> a <= v < b || b <= v < a
    decreases a + b
  {
    if a == b then {} else if a < b then Interval(a, b - 1) + {b - 1} else Interval(a - 1, b) + {a - 1}
  }

  ghost function Placed(i: nat, vs: set<nat>): set<(nat, nat)> {
    set v | v in vs :: (i, v)
  }

  /** The single steps from code point to code point that lead at some position below n from one padded string to
      the other. */
  ghost function Steps(s: string, t: string, n: nat): set<(nat, nat)> {
    set i: nat, p | i < n && p in Placed(i, Interval(Code(s, i), Code(t, i))) :: p
  }

  lemma {:induction false} PlacedSize(i: nat, vs: set<nat>)
    ensures |Placed(i, vs)| == |vs|
    decreases |vs|
  {
    if vs != {} {
      var v :| v in vs;
      PlacedSize(i, vs - {v});
      assert Placed(i, vs) == Placed(i, vs - {v}) + {(i, v)};
    }
  }

  lemma InPlaced(i: nat, vs: set<nat>, p: (nat, nat))
    ensures p in Placed(i, vs) <==> p.0 == i && p.1 in vs
  {
  }

  lemma InSteps(s: string, t: string, n: nat, p: (nat, nat))
    ensures p in Steps(s, t, n) <==> p.0 < n && p.1 in Interval(Code(s, p.0), Code(t, p.0))
  {
    hide Interval, Placed, Code;
    forall i: nat ensures p in Placed(i, Interval(Code(s, i), Code(t, i))) <==>
                          p.0 == i && p.1 in Interval(Code(s, i), Code(t, i)) {
      InPlaced(i, Interval(Code(s, i), Code(t, i)), p);
    }
  }

  lemma StepsNext(s: string, t: string, n: nat)
    ensures |Steps(s, t, n + 1)| == |Steps(s, t, n)| + |Interval(Code(s, n), Code(t, n))|
  {
    hide Interval, Placed, Code, Steps;
    var a, b, next := Steps(s, t, n + 1), Steps(s, t, n), Placed(n, Interval(Code(s, n), Code(t, n)));
    PlacedSize(n, Interval(Code(s, n), Code(t, n)));
    forall p ensures p in a <==> p in b || p in next
             ensures !(p in b && p in next)
    {
      InSteps(s, t, n + 1, p);
      InSteps(s, t, n, p);
      InPlaced(n, Interval(Code(s, n), Code(t, n)), p);
    }
    assert a == b + next && b !! next;
  }

  lemma DifferingNext(s: string, t: string, n: nat)
    ensures |Differing(s, t, n + 1)| == |Differing(s, t, n)| + Cost(At(s, n), At(t, n))
  {
    assert NUL as int == 0;
    assert Differing(s, t, n + 1) == Differing(s, t, n) + if Code(s, n) != Code(t, n) then {n} else {};
  }

  lemma GapIs(s: string, t: string, n: nat)
    ensures |Interval(Code(s, n), Code(t, n))| == Gap(At(s, n), At(t, n))
  {
    assert NUL as int == 0;
  }

  lemma {:induction false} StepsBelow(s: string, t: string, n: nat)
    ensures |Steps(s, t, n)| == Gaps(s, t, n) && |Differing(s, t, n)| == Mismatches(s, t, n)
  {
    hide Interval, Code, Gap, Cost, At, Placed;
    if n == 0 {
      assert Steps(s, t, 0) == {} && Differing(s, t, 0) == {};
    } else {
      StepsBelow(s, t, n - 1);
      StepsNext(s, t, n - 1);
      GapIs(s, t, n - 1);
      DifferingNext(s, t, n - 1);
    }
  }

  /** Hamming counts the positions at which the padded strings differ, Manhattan the code points between them. */
  lemma DistancesCount(s: string, t: string, n: nat)
    requires |s| <= n && |t| <= n
    ensures Hamming(s, t) == |Differing(s, t, n)| && Manhattan(s, t) == |Steps(s, t, n)|
  {
    StepsBelow(s, t, n);
    PastTheEnd(s, t, n);
  }

  // ----- comparisons -----

  /** NULs among the first n positions where only one of the strings is still running: padding hides them. */
  function HiddenNuls(s: string, t: string, n: nat): nat {
    if n == 0 then 0
    else HiddenNuls(s, t, n - 1) +
         if (n <= |s|) != (n <= |t|) && At(s, n - 1) == NUL && At(t, n - 1) == NUL then 1 else 0
  }

  function Prefix(s: string, n: nat): string {
    if n <= |s| then s[..n] else s
  }

  lemma {:induction false} EditBelowMismatches(s: string, t: string, n: nat)
    ensures Distance(Prefix(s, n), Prefix(t, n)) <= Mismatches(s, t, n) + HiddenNuls(s, t, n)
  {
    hide Distance;
    if n == 0 {
      assert Prefix(s, 0) == [] && Prefix(t, 0) == [];
      ZeroMeansEqual([], []);
    } else {
      EditBelowMismatches(s, t, n - 1);
      var a, b := Prefix(s, n), Prefix(t, n);
      assert n <= |s| ==> Front(a) == Prefix(s, n - 1) && Last(a) == At(s, n - 1);
      assert n <= |t| ==> Front(b) == Prefix(t, n - 1) && Last(b) == At(t, n - 1);
      assert (|s| < n ==> Prefix(s, n - 1) == a) && (|t| < n ==> Prefix(t, n - 1) == b);
      if n <= |s| && n <= |t| {
        FullRecurrence(a, b);
      } else if n <= |s| {
        DropLeft(a, b);
      } else if n <= |t| {
        Drop(a, b);
      }
    }
  }

  lemma {:induction false} NothingHidden(s: string, t: string, n: nat)
    requires forall i :: |t| <= i < |s| ==> s[i] != NUL
    requires forall i :: |s| <= i < |t| ==> t[i] != NUL
    ensures HiddenNuls(s, t, n) == 0
  {
    if 0 < n {
      NothingHidden(s, t, n - 1);
    }
  }

  lemma {:induction false} MismatchesBelowGaps(s: string, t: string, n: nat)
    ensures Mismatches(s, t, n) <= Gaps(s, t, n)
  {
    if 0 < n {
      MismatchesBelowGaps(s, t, n - 1);
    }
  }

  /** On every pair the edit distance exceeds the padded Hamming distance by no more than the NULs that
      padding hides, and Hamming never exceeds Manhattan. */
  lemma EditHammingManhattan(s: string, t: string)
    ensures Distance(s, t) <= Hamming(s, t) + HiddenNuls(s, t, Longest(s, t))
    ensures Hamming(s, t) <= Manhattan(s, t)
  {
    hide Distance;
    var n := Longest(s, t);
    EditBelowMismatches(s, t, n);
    assert Prefix(s, n) == s && Prefix(t, n) == t;
    MismatchesBelowGaps(s, t, n);
  }

  /** Where the longer string's tail is free of NULs the three distances are ordered. */
  lemma Ordered(s: string, t: string)
    requires forall i :: |t| <= i < |s| ==> s[i] != NUL
    requires forall i :: |s| <= i < |t| ==> t[i] != NUL
    ensures Distance(s, t) <= Hamming(s, t) <= Manhattan(s, t)
  {
    EditHammingManhattan(s, t);
    NothingHidden(s, t, Longest(s, t));
  }

  /** Against the empty string the bound is met with equality. */
  lemma {:induction false} EmptyMeetsBound(u: string, n: nat)
    requires n <= |u|
    ensures Mismatches("", u, n) + HiddenNuls("", u, n) == n
  {
    if 0 < n {
      EmptyMeetsBound(u, n - 1);
    }
  }

  lemma {:induction false} HiddenNulCounts(u: string, i: nat, n: nat)
    requires i < n <= |u| && u[i] == NUL
    ensures 0 < HiddenNuls("", u, n)
    decreases n
  {
    if i < n - 1 {
      HiddenNulCounts(u, i, n - 1);
    }
  }

  /** Exactly the NUL-free tails are safe: the edit distance stays below the padded Hamming distance for all pairs
      in which one string runs on by the tail u, if and only if u has no NUL. */
  lemma OrderedForTails(u: string)
    ensures (forall s: string, t: string :: |s| == |t| ==> Distance(s, t + u) <= Hamming(s, t + u)) <==> NUL !in u
  {
    hide Distance, Hamming;
    if NUL in u {
      TailBreaksOrder(u);
      assert "" + u == u;
    } else {
      forall s: string, t: string | |s| == |t| ensures Distance(s, t + u) <= Hamming(s, t + u) {
        TailKeepsOrder(s, t, u);
      }
    }
  }

  lemma TailBreaksOrder(u: string)
    requires NUL in u
    ensures Hamming("", u) < Distance("", u)
  {
    var i :| 0 <= i < |u| && u[i] == NUL;
    EmptyMeetsBound(u, |u|);
    HiddenNulCounts(u, i, |u|);
  }

  lemma TailKeepsOrder(s: string, t: string, u: string)
    requires |s| == |t| && NUL !in u
    ensures Distance(s, t + u) <= Hamming(s, t + u)
  {
    hide Distance, Hamming;
    assert forall i :: |s| <= i < |t + u| ==> (t + u)[i] == u[i - |t|];
    Ordered(s, t + u);
  }

  /** With a NUL in the tail the order fails: both padded distances take these two strings for equal. */
  lemma HiddenNulBreaksOrder()
    ensures Distance("", [NUL]) == 1 && Hamming("", [NUL]) == 0 && Manhattan("", [NUL]) == 0
  {
    var t: string := [NUL];
    assert Longest("", t) == 1 && At("", 0) == NUL && At(t, 0) == NUL;
    assert Gap(NUL, NUL) == 0 && Cost(NUL, NUL) == 0;
    assert Mismatches("", t, 0) == 0 && Gaps("", t, 0) == 0;
  }

  // ----- both are pseudometrics -----

  lemma {:induction false} PastTheEnd(s: string, t: string, n: nat)
    requires Longest(s, t) <= n
    ensures Mismatches(s, t, n) == Hamming(s, t) && Gaps(s, t, n) == Manhattan(s, t)
  {
    if Longest(s, t) < n {
      PastTheEnd(s, t, n - 1);
    }
  }

  lemma {:induction false} PointwiseTriangle(a: string, b: string, c: string, n: nat)
    ensures Mismatches(a, c, n) <= Mismatches(a, b, n) + Mismatches(b, c, n)
    ensures Gaps(a, c, n) <= Gaps(a, b, n) + Gaps(b, c, n)
  {
    if 0 < n {
      PointwiseTriangle(a, b, c, n - 1);
    }
  }

  lemma {:induction false} PointwiseSymmetric(s: string, t: string, n: nat)
    ensures Mismatches(s, t, n) == Mismatches(t, s, n) && Gaps(s, t, n) == Gaps(t, s, n)
  {
    if 0 < n {
      PointwiseSymmetric(s, t, n - 1);
    }
  }

  lemma PaddedSymmetric(s: string, t: string)
    ensures Hamming(s, t) == Hamming(t, s) && Manhattan(s, t) == Manhattan(t, s)
  {
    PointwiseSymmetric(s, t, Longest(s, t));
  }

  lemma PaddedTriangle(a: string, b: string, c: string)
    ensures Hamming(a, c) <= Hamming(a, b) + Hamming(b, c)
    ensures Manhattan(a, c) <= Manhattan(a, b) + Manhattan(b, c)
  {
    var n := |a| + |b| + |c|;
    PastTheEnd(a, c, n);
    PastTheEnd(a, b, n);
    PastTheEnd(b, c, n);
    PointwiseTriangle(a, b, c, n);
  }

  lemma {:induction false} ZeroUpTo(s: string, t: string, n: nat)
    ensures Mismatches(s, t, n) == 0 <==> forall i :: 0 <= i < n ==> At(s, i) == At(t, i)
    ensures Gaps(s, t, n) == 0 <==> Mismatches(s, t, n) == 0
  {
    if 0 < n {
      ZeroUpTo(s, t, n - 1);
    }
  }

  /** Distance zero means equal up to trailing NULs of the longer string. */
  lemma ZeroMeansEqualPadded(s: string, t: string)
    requires |s| <= |t|
    ensures Hamming(s, t) == 0 <==> s <= t && forall i :: |s| <= i < |t| ==> t[i] == NUL
    ensures Manhattan(s, t) == 0 <==> Hamming(s, t) == 0
  {
    ZeroUpTo(s, t, |t|);
    if s <= t && forall i :: |s| <= i < |t| ==> t[i] == NUL {
      assert forall i :: 0 <= i < |t| ==> At(s, i) == At(t, i);
    } else if Hamming(s, t) == 0 {
      assert forall i :: 0 <= i < |s| ==> At(s, i) == s[i] && At(t, i) == t[i];
      assert forall i :: |s| <= i < |t| ==> At(s, i) == NUL && At(t, i) == t[i];
    }
  }
}
