/** The edit-distance table and what it measures: the length of a shortest edit script. */
module EditDistance {

  function Front(s: string): (r: string)
    requires s != []
    ensures |r| == |s| - 1
  {
    s[..|s| - 1]
  }

  function Last(s: string): char
    requires s != []
  {
    s[|s| - 1]
  }

  function Min(a: nat, b: nat): nat {
    if a <= b then a else b
  }

  /** The recurrence of the table: equal last characters take the diagonal without comparing. */
  function Distance(s: string, t: string): nat
    decreases |s| + |t|
  {
    if s == [] then |t|
    else if t == [] then |s|
    else if Last(s) == Last(t) then Distance(Front(s), Front(t))
    else Min(Min(Distance(Front(s), t) + 1, Distance(s, Front(t)) + 1), Distance(Front(s), Front(t)) + 1)
  }

  lemma {:induction false} Unfold(s: string, t: string)
    requires s != [] && t != []
    ensures Distance(s, t) ==
            if Last(s) == Last(t) then Distance(Front(s), Front(t))
            else Min(Min(Distance(Front(s), t) + 1, Distance(s, Front(t)) + 1), Distance(Front(s), Front(t)) + 1)
  {
  }

  /** edit_distance: fills the table row by row. */
  method ComputeDistance(s1: string, s2: string) returns (r: nat)
    ensures r == Distance(s1, s2)
  {
    hide Distance;
    var m, n := |s1|, |s2|;
    var dp := new nat[m + 1, n + 1];
    for i := 0 to m + 1
      invariant forall a :: 0 <= a < i ==> dp[a, 0] == a
    {
      dp[i, 0] := i;
    }
    for j := 0 to n + 1
      invariant forall a :: 0 <= a <= m ==> (a == 0 && 0 < j) || dp[a, 0] == a
      invariant forall b :: 0 <= b < j ==> dp[0, b] == b
    {
      dp[0, j] := j;
    }
    TableEdges(s1, s2);
    for i := 1 to m + 1
      invariant forall a, b :: 0 <= a < i && 0 <= b <= n ==> dp[a, b] == Entry(s1, s2, a, b)
      invariant forall a :: i <= a <= m ==> dp[a, 0] == a
    {
      for j := 1 to n + 1
        invariant forall a, b :: 0 <= a < i && 0 <= b <= n ==> dp[a, b] == Entry(s1, s2, a, b)
        invariant forall a :: i <= a <= m ==> dp[a, 0] == a
        invariant forall b :: 0 <= b < j ==> dp[i, b] == Entry(s1, s2, i, b)
      {
        TableStep(s1, s2, i, j);
        if s1[i - 1] == s2[j - 1] {
          dp[i, j] := dp[i - 1, j - 1];
        } else {
          dp[i, j] := Min(Min(dp[i - 1, j] + 1, dp[i, j - 1] + 1), dp[i - 1, j - 1] + 1);
        }
      }
    }
    assert s1[..m] == s1 && s2[..n] == s2;
    r := dp[m, n];
  }

  /** What cell (a, b) of the table holds: the distance between the prefixes. */
  ghost function Entry(s1: string, s2: string, a: nat, b: nat): nat
    requires a <= |s1| && b <= |s2|
  {
    Distance(s1[..a], s2[..b])
  }

  lemma TableEdges(s: string, t: string)
    ensures forall a :: 0 <= a <= |s| ==> Entry(s, t, a, 0) == a
    ensures forall b :: 0 <= b <= |t| ==> Entry(s, t, 0, b) == b
  {
  }

  lemma TableStep(s: string, t: string, i: nat, j: nat)
    requires 0 < i <= |s| && 0 < j <= |t|
    ensures Entry(s, t, i, j) ==
            if s[i - 1] == t[j - 1] then Entry(s, t, i - 1, j - 1)
            else Min(Min(Entry(s, t, i - 1, j) + 1, Entry(s, t, i, j - 1) + 1), Entry(s, t, i - 1, j - 1) + 1)
  {
    hide Distance;
    assert Front(s[..i]) == s[..i - 1] && Front(t[..j]) == t[..j - 1];
    Unfold(s[..i], t[..j]);
  }

  // ----- a metric -----

  lemma {:induction false} Symmetric(s: string, t: string)
    ensures Distance(s, t) == Distance(t, s)
    decreases |s| + |t|
  {
    if s != [] && t != [] {
      Symmetric(Front(s), Front(t));
      Symmetric(Front(s), t);
      Symmetric(s, Front(t));
    }
  }

  lemma {:induction false} ZeroMeansEqual(s: string, t: string)
    ensures Distance(s, t) == 0 <==> s == t
    decreases |s| + |t|
  {
    if s != [] && t != [] {
      ZeroMeansEqual(Front(s), Front(t));
      assert s == Front(s) + [Last(s)] && t == Front(t) + [Last(t)];
    }
  }

  /** Leaving out the last character of either string moves the distance by at most one. */
  lemma {:induction false} Drop(s: string, t: string)
    requires t != []
    ensures Distance(s, Front(t)) <= Distance(s, t) + 1
    ensures Distance(s, t) <= Distance(s, Front(t)) + 1
    decreases |s| + |t|
  {
    if s != [] {
      Drop(Front(s), t);
      DropLeft(s, Front(t));
    }
  }

  lemma {:induction false} DropLeft(s: string, t: string)
    requires s != []
    ensures Distance(Front(s), t) <= Distance(s, t) + 1
    ensures Distance(s, t) <= Distance(Front(s), t) + 1
    decreases |s| + |t|
  {
    if t != [] {
      DropLeft(s, Front(t));
      Drop(Front(s), t);
    }
  }

  function Cost(a: char, b: char): nat {
    if a == b then 0 else 1
  }

  /** The recurrence with all three moves open at every cell, although the table compares them only
      where the characters differ. */
  lemma FullRecurrence(s: string, t: string)
    requires s != [] && t != []
    ensures Distance(s, t) == Min(Min(Distance(Front(s), t) + 1, Distance(s, Front(t)) + 1),
                                  Distance(Front(s), Front(t)) + Cost(Last(s), Last(t)))
  {
    hide Distance;
    Unfold(s, t);
    Drop(s, t);
    DropLeft(s, t);
    Drop(Front(s), t);
    DropLeft(s, Front(t));
  }

  lemma {:induction false} Lengths(s: string, t: string)
    ensures |t| - |s| <= Distance(s, t) <= |s| + |t|
    ensures |s| - |t| <= Distance(s, t)
    decreases |s| + |t|
  {
    if s != [] && t != [] {
      Lengths(Front(s), Front(t));
      Lengths(Front(s), t);
      Lengths(s, Front(t));
    }
  }

  lemma Empties(a: string, b: string, c: string)
    ensures a == [] ==> Distance(a, b) == |b| && Distance(a, c) == |c|
    ensures b == [] ==> Distance(a, b) == |a| && Distance(b, c) == |c|
    ensures c == [] ==> Distance(a, c) == |a| && Distance(b, c) == |b|
  {
  }

  lemma {:induction false} Triangle(a: string, b: string, c: string)
    ensures Distance(a, c) <= Distance(a, b) + Distance(b, c)
    decreases |a| + |b| + |c|
  {
    hide Distance;
    if a == [] || b == [] || c == [] {
      Empties(a, b, c);
      Lengths(a, c);
      Lengths(a, b);
      Lengths(b, c);
    } else {
      FullRecurrence(a, b);
      FullRecurrence(b, c);
      FullRecurrence(a, c);
      Triangle(Front(a), b, c);
      Triangle(a, b, Front(c));
      Triangle(a, Front(b), c);
      Triangle(a, Front(b), Front(c));
      Triangle(Front(a), Front(b), c);
      Triangle(Front(a), Front(b), Front(c));
    }
  }

  // ----- shortest scripts -----

  ghost predicate Inserted(s: string, t: string, i: nat) {
    i < |t| && s == t[..i] + t[i + 1..]
  }

  ghost predicate Substituted(s: string, t: string, i: nat) {
    i < |s| && |s| == |t| && t == s[i := t[i]]
  }

  /** One insertion, deletion or substitution turns s into t. */
  ghost predicate Edit(s: string, t: string) {
    exists i :: Inserted(s, t, i) || Inserted(t, s, i) || Substituted(s, t, i)
  }

  /** A script: the strings passed through, each one edit from the one before. */
  ghost predicate Script(p: seq<string>, s: string, t: string) {
    && p != [] && p[0] == s && p[|p| - 1] == t
    && forall i :: 0 < i < |p| ==> Edit(p[i - 1], p[i])
  }

  lemma {:induction false} InsertedClose(s: string, t: string, i: nat)
    requires Inserted(s, t, i)
    ensures Distance(s, t) <= 1
    decreases |t|
  {
    hide Distance;
    if i == |t| - 1 {
      assert s == Front(t);
      Drop(s, t);
      ZeroMeansEqual(s, s);
    } else {
      assert Last(s) == Last(t);
      assert Inserted(Front(s), Front(t), i);
      InsertedClose(Front(s), Front(t), i);
      Unfold(s, t);
    }
  }

  lemma {:induction false} SubstitutedClose(s: string, t: string, i: nat)
    requires Substituted(s, t, i)
    ensures Distance(s, t) <= 1
    decreases |t|
  {
    hide Distance;
    FullRecurrence(s, t);
    if i == |t| - 1 {
      assert Front(s) == Front(t);
      ZeroMeansEqual(Front(s), Front(t));
    } else {
      assert Last(s) == Last(t);
      assert Substituted(Front(s), Front(t), i);
      SubstitutedClose(Front(s), Front(t), i);
    }
  }

  lemma EditClose(s: string, t: string)
    requires Edit(s, t)
    ensures Distance(s, t) <= 1
  {
    hide Distance;
    var i :| Inserted(s, t, i) || Inserted(t, s, i) || Substituted(s, t, i);
    if Inserted(s, t, i) {
      InsertedClose(s, t, i);
    } else if Inserted(t, s, i) {
      InsertedClose(t, s, i);
      Symmetric(s, t);
    } else {
      SubstitutedClose(s, t, i);
    }
  }

  /** No script is shorter than the distance. */
  lemma {:induction false} ScriptsAreLonger(p: seq<string>, s: string, t: string)
    requires Script(p, s, t)
    ensures Distance(s, t) < |p|
    decreases |p|
  {
    hide Distance;
    if |p| == 1 {
      ZeroMeansEqual(s, t);
    } else {
      var last := |p| - 1;
      ScriptsAreLonger(p[..last], s, p[last - 1]);
      EditClose(p[last - 1], p[last]);
      Triangle(s, p[last - 1], t);
    }
  }

  lemma InsertedUnder(s: string, t: string, i: nat, c: char)
    requires Inserted(s, t, i)
    ensures Inserted(s + [c], t + [c], i)
  {
    assert (t + [c])[..i] + (t + [c])[i + 1..] == t[..i] + t[i + 1..] + [c];
  }

  lemma EditUnder(s: string, t: string, c: char)
    requires Edit(s, t)
    ensures Edit(s + [c], t + [c])
  {
    var i :| Inserted(s, t, i) || Inserted(t, s, i) || Substituted(s, t, i);
    if Inserted(s, t, i) {
      InsertedUnder(s, t, i, c);
    } else if Inserted(t, s, i) {
      InsertedUnder(t, s, i, c);
    } else {
      assert Substituted(s + [c], t + [c], i);
    }
  }

  /** The same script, with one more character at the end of every string. */
  ghost function Under(p: seq<string>, c: char): (r: seq<string>) {
    seq(|p|, i requires 0 <= i < |p| => p[i] + [c])
  }

  lemma ScriptUnder(p: seq<string>, s: string, t: string, c: char)
    requires Script(p, s, t)
    ensures Script(Under(p, c), s + [c], t + [c])
  {
    var r := Under(p, c);
    forall i | 0 < i < |r| ensures Edit(r[i - 1], r[i]) {
      EditUnder(p[i - 1], p[i], c);
    }
  }

  lemma ScriptThen(p: seq<string>, s: string, t: string, u: string)
    requires Script(p, s, t) && Edit(t, u)
    ensures Script(p + [u], s, u)
  {
    var r := p + [u];
    forall i | 0 < i < |r| ensures Edit(r[i - 1], r[i]) {
      assert i < |p| ==> Edit(p[i - 1], p[i]);
    }
  }

  lemma EditThen(p: seq<string>, s: string, t: string, u: string)
    requires Script(p, t, u) && Edit(s, t)
    ensures Script([s] + p, s, u)
  {
    var r := [s] + p;
    forall i | 0 < i < |r| ensures Edit(r[i - 1], r[i]) {
      assert 1 < i ==> Edit(p[i - 2], p[i - 1]);
    }
  }

  lemma LastEdits(s: string, c: char, e: char)
    ensures Edit(s, s + [c]) && Edit(s + [c], s) && (c != e ==> Edit(s + [c], s + [e]))
  {
    assert Inserted(s, s + [c], |s|);
    assert Substituted(s + [c], s + [e], |s|);
  }

  /** Appending, dropping and replacing a last character, as one more edit of a script. */
  lemma ScriptAppend(p: seq<string>, s: string, t: string)
    requires t != [] && Script(p, s, Front(t))
    ensures Script(p + [t], s, t)
  {
    hide Script, Edit;
    LastEdits(Front(t), Last(t), Last(t));
    assert Front(t) + [Last(t)] == t;
    ScriptThen(p, s, Front(t), t);
  }

  lemma ScriptDrop(p: seq<string>, s: string, t: string)
    requires s != [] && Script(p, Front(s), t)
    ensures Script([s] + p, s, t)
  {
    hide Script, Edit;
    LastEdits(Front(s), Last(s), Last(s));
    assert Front(s) + [Last(s)] == s;
    EditThen(p, s, Front(s), t);
  }

  lemma ScriptReplace(p: seq<string>, s: string, t: string) returns (r: seq<string>)
    requires s != [] && t != [] && Script(p, Front(s), Front(t))
    ensures Script(r, s, t) && |r| == |p| + if Last(s) == Last(t) then 0 else 1
  {
    hide Script, Edit;
    ScriptUnder(p, Front(s), Front(t), Last(s));
    r := Under(p, Last(s));
    assert Front(s) + [Last(s)] == s && Front(t) + [Last(t)] == t;
    if Last(s) != Last(t) {
      LastEdits(Front(t), Last(s), Last(t));
      ScriptThen(r, s, Front(t) + [Last(s)], t);
      r := r + [t];
    }
  }

  /** A script exactly as long as the distance. */
  lemma {:induction false} ShortScript(s: string, t: string) returns (p: seq<string>)
    ensures Script(p, s, t) && |p| == Distance(s, t) + 1
    decreases |s| + |t|
  {
    hide Script;
    if s == [] && t == [] {
      p := [s];
      assert Script(p, s, t) by { OneString(s); }
    } else if s == [] || (t != [] && Last(s) != Last(t) && Distance(s, t) == Distance(s, Front(t)) + 1) {
      p := ShortScript(s, Front(t));
      ScriptAppend(p, s, t);
      p := p + [t];
    } else if t == [] || (Last(s) != Last(t) && Distance(s, t) == Distance(Front(s), t) + 1) {
      p := ShortScript(Front(s), t);
      ScriptDrop(p, s, t);
      p := [s] + p;
    } else {
      p := ShortScript(Front(s), Front(t));
      p := ScriptReplace(p, s, t);
    }
  }

  lemma OneString(s: string)
    ensures Script([s], s, s)
  {
  }

  /** The table computes the length of a shortest edit script. */
  lemma DistanceIsShortest(s: string, t: string)
    ensures exists p :: Script(p, s, t) && |p| - 1 == Distance(s, t)
    ensures forall p :: Script(p, s, t) ==> Distance(s, t) <= |p| - 1
  {
    hide Distance, Script;
    var p := ShortScript(s, t);
    forall q | Script(q, s, t) ensures Distance(s, t) <= |q| - 1 {
      ScriptsAreLonger(q, s, t);
    }
  }
}
