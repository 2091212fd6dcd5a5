/** Line coverage of test cases: a dictionary from tests to dictionaries from files to line lists. */
module CoverageHelper {
  import opened Collections
  import opened GreedyCover
  import opened StableOrder

  type Name = string
  type File = string
  type Line = nat
  type Cov = map<File, seq<Line>>
  type Place = (File, Line)

  function LineSet(s: seq<Line>): set<Line> {
    set l | l in s
  }

  /** The covered lines as places. */
  function Lines(c: Cov): set<Place> {
    set f, l | f in c && l in c[f] :: (f, l)
  }

  /** Lists of files that base does not have are counted by length, so they must be free of repeats. */
  ghost predicate CountsRight(base: Cov, add: Cov, files: set<File>) {
    forall f :: f in files && f in add && f !in base ==> Distinct(add[f])
  }

  ghost predicate CleanCov(c: Cov) {
    forall f :: f in c ==> Distinct(c[f])
  }

  // ----- sizes -----

  lemma {:induction false} LineSetSize(s: seq<Line>)
    ensures |LineSet(s)| <= |s| && (|LineSet(s)| == |s| <==> Distinct(s))
  {
    if s != [] {
      var r, x := s[..|s| - 1], s[|s| - 1];
      LineSetSize(r);
      assert s == r + [x];
      assert LineSet(s) == LineSet(r) + {x};
      AppendDistinct(r, x);
      assert x in r <==> x in LineSet(r);
    }
  }

  function At(f: File, ls: set<Line>): set<Place> {
    set l | l in ls :: (f, l)
  }

  lemma {:induction false} AtSize(f: File, ls: set<Line>)
    ensures |At(f, ls)| == |ls|
    decreases |ls|
  {
    if ls == {} {
      assert At(f, ls) == {};
    } else {
      var x :| x in ls;
      AtSize(f, ls - {x});
      assert At(f, ls) == At(f, ls - {x}) + {(f, x)};
    }
  }

  /** The covered lines of some of the files. */
  function Part(c: Cov, files: set<File>): set<Place> {
    set p | p in Lines(c) && p.0 in files
  }

  function News(c: Cov, f: File, base: set<Place>): set<Line>
    requires f in c
  {
    set l | l in c[f] && (f, l) !in base
  }

  lemma PartNext(c: Cov, files: set<File>, f: File, base: set<Place>)
    requires f in c && f !in files
    ensures |Part(c, files + {f}) - base| == |Part(c, files) - base| + |News(c, f, base)|
  {
    var news := News(c, f, base);
    AtSize(f, news);
    var a, b := Part(c, files + {f}) - base, Part(c, files) - base;
    forall p ensures p in a <==> p in b || p in At(f, news) {
      assert p.0 == f ==> (p in At(f, news) <==> p.1 in news);
    }
    assert a == b + At(f, news) && b !! At(f, news);
  }

  // ----- reading and combining -----

  /** One file's contribution to the count of new lines, and how much it counts too often. */
  function FileGain(base: Cov, add: Cov, f: File): nat
    requires f in add
  {
    if f !in base then |add[f]| else |LineSet(add[f]) - LineSet(base[f])|
  }

  /** What is counted as new over lines of known files, as a set: the positions of the lists of unknown files, and
      the new lines of the known ones. */
  function Counted(known: set<File>, base: set<Place>, add: Cov): set<Place> {
    (set f, i | f in add && f !in known && 0 <= i < |add[f]| :: (f, i)) +
    (set f, l | f in add && f in known && l in add[f] && (f, l) !in base :: (f, l))
  }

  function CountedOf(known: set<File>, base: set<Place>, add: Cov, files: set<File>): set<Place> {
    set p | p in Counted(known, base, add) && p.0 in files
  }

  lemma CountedNext(base: Cov, add: Cov, files: set<File>, f: File)
    requires f in add && f !in files
    ensures |CountedOf(base.Keys, Lines(base), add, files + {f})| ==
            |CountedOf(base.Keys, Lines(base), add, files)| + FileGain(base, add, f)
  {
    var a := CountedOf(base.Keys, Lines(base), add, files + {f});
    var b := CountedOf(base.Keys, Lines(base), add, files);
    var own := if f in base then LineSet(add[f]) - LineSet(base[f]) else Below(|add[f]|);
    AtSize(f, own);
    forall p ensures p in a <==> p in b || p in At(f, own) {
      assert p.0 == f ==> (p in At(f, own) <==> p.1 in own);
      assert p.0 == f && f in base ==> (p in Lines(base) <==> p.1 in base[f]);
    }
    assert a == b + At(f, own) && b !! At(f, own);
  }

  lemma CountedAll(known: set<File>, base: set<Place>, add: Cov)
    ensures CountedOf(known, base, add, {}) == {} && CountedOf(known, base, add, add.Keys) == Counted(known, base, add)
  {
  }

  lemma NewsIs(base: Cov, add: Cov, f: File)
    requires f in add
    ensures News(add, f, Lines(base)) == if f in base then LineSet(add[f]) - LineSet(base[f]) else LineSet(add[f])
  {
  }

  lemma FileGainRight(base: Cov, add: Cov, files: set<File>, f: File)
    requires f in add && f !in files
    ensures |Part(add, files + {f}) - Lines(base)| <= |Part(add, files) - Lines(base)| + FileGain(base, add, f)
    ensures |Part(add, files + {f}) - Lines(base)| == |Part(add, files) - Lines(base)| + FileGain(base, add, f) <==>
            (f !in base ==> Distinct(add[f]))
  {
    hide Part, Lines, News, LineSet, Distinct;
    PartNext(add, files, f, Lines(base));
    NewsIs(base, add, f);
    LineSetSize(add[f]);
  }

  /** The number of lines that add covers beyond base: exact if and only if no list that is counted
      by its length repeats a line. */
  method GetAdditionalCov(base: Cov, add: Cov) returns (res: nat)
    ensures res == |Counted(base.Keys, Lines(base), add)|
    ensures |Lines(add) - Lines(base)| <= res
    ensures res == |Lines(add) - Lines(base)| <==> CountsRight(base, add, add.Keys)
  {
    hide Part, Lines, Distinct, Counted, CountedOf;
    CountedAll(base.Keys, Lines(base), add);
    res := 0;
    var left := add.Keys;
    ghost var done := {};
    NoPart(add, base);
    while left != {}
      invariant done == add.Keys - left && left <= add.Keys
      invariant res == |CountedOf(base.Keys, Lines(base), add, done)|
      invariant |Part(add, done) - Lines(base)| <= res
      invariant res == |Part(add, done) - Lines(base)| <==> CountsRight(base, add, done)
    {
      var k :| k in left;
      FileGainRight(base, add, done, k);
      CountedNext(base, add, done, k);
      if k !in base {
        res := res + |add[k]|;
      } else {
        res := res + |LineSet(add[k]) - LineSet(base[k])|;
      }
      left := left - {k};
      done := done + {k};
    }
    AllParts(add);
    assert done == add.Keys;
  }

  lemma NoPart(c: Cov, base: Cov)
    ensures Part(c, {}) - Lines(base) == {}
  {
  }

  lemma AllParts(c: Cov)
    ensures Part(c, c.Keys) == Lines(c)
  {
  }

  /** list(set): every element once, in some order. */
  method ToList(s: set<Line>) returns (r: seq<Line>)
    ensures LineSet(r) == s && Distinct(r)
  {
    r := [];
    var left := s;
    while left != {}
      invariant left <= s && Distinct(r) && LineSet(r) == s - left
    {
      var x :| x in left;
      assert x !in LineSet(r);
      LineSetSnoc(r, x);
      left := left - {x};
      r := r + [x];
    }
  }

  lemma LineSetSnoc(r: seq<Line>, x: Line)
    ensures LineSet(r + [x]) == LineSet(r) + {x}
  {
    var s := r + [x];
    forall l ensures l in LineSet(s) <==> l in LineSet(r) + {x} {
      assert s[|r|] == x;
      if l in r {
        var i :| 0 <= i < |r| && r[i] == l;
        assert s[i] == l;
      }
    }
  }

  method CombineCov(base: Cov, add: Cov) returns (r: Cov)
    ensures Lines(r) == Lines(base) + Lines(add)
    ensures r.Keys == base.Keys + add.Keys
  {
    hide Lines, LineSet, At, Distinct;
    r := base;
    var left := add.Keys;
    ghost var done := {};
    NoPart(add, base);
    while left != {}
      invariant done == add.Keys - left && left <= add.Keys && r.Keys == base.Keys + done
      invariant Lines(r) == Lines(base) + Part(add, done)
    {
      var k :| k in left;
      ghost var before := r;
      if k !in r {
        r := r[k := add[k]];
      } else {
        var both := ToList(LineSet(r[k]) + LineSet(add[k]));
        r := r[k := both];
      }
      CombineStep(before, r, add, k);
      PartStep(add, done, k);
      left := left - {k};
      done := done + {k};
    }
    AllParts(add);
  }

  lemma PartStep(c: Cov, files: set<File>, f: File)
    requires f in c
    ensures Part(c, files + {f}) == Part(c, files) + At(f, LineSet(c[f]))
  {
  }

  lemma CombineStep(before: Cov, after: Cov, add: Cov, k: File)
    requires k in add && k in after && after.Keys == before.Keys + {k}
    requires forall f :: f in before && f != k ==> after[f] == before[f]
    requires LineSet(after[k]) == (if k in before then LineSet(before[k]) else {}) + LineSet(add[k])
    ensures Lines(after) == Lines(before) + At(k, LineSet(add[k]))
  {
    forall p ensures p in Lines(after) <==> p in Lines(before) || p in At(k, LineSet(add[k])) {
      assert p.0 == k && k in after ==> (p.1 in after[k] <==> p.1 in LineSet(after[k]));
      assert k in before ==> (p.1 in before[k] <==> p.1 in LineSet(before[k]));
    }
  }

  // ----- comparing, intersecting, subtracting -----

  /** The places covered by one test and not by the other, file by file; files without any are left out. */
  method Difference(cov: Cov, other: Cov) returns (r: Cov)
    ensures Lines(r) == Lines(cov) - Lines(other)
    ensures forall f :: f in r ==> r[f] != []
  {
    r := map[];
    var left := cov.Keys;
    ghost var done := {};
    while left != {}
      invariant done == cov.Keys - left && left <= cov.Keys && r.Keys <= done
      invariant forall f :: f in r ==> r[f] != []
      invariant forall f, l :: f in done && l in cov[f] && !(f in other && l in other[f]) ==> f in r && l in r[f]
      invariant forall f, l :: f in r && l in r[f] ==> l in cov[f] && !(f in other && l in other[f])
    {
      var k :| k in left;
      var a := LineSet(cov[k]);
      var b := if k in other then LineSet(other[k]) else {};
      var diff := ToList(a - b);
      forall l ensures l in diff <==> l in cov[k] && !(k in other && l in other[k]) {
        assert l in diff <==> l in LineSet(diff);
      }
      if |diff| > 0 {
        r := r[k := diff];
      }
      left := left - {k};
      done := done + {k};
    }
    assert done == cov.Keys;
  }

  /** Narrows the common lines by one test, in the files that test lists. */
  method IntersectInto(common: Cov, cov: Cov) returns (r: Cov)
    ensures r.Keys == common.Keys
    ensures forall f :: f in common ==>
                          LineSet(r[f]) == if f in cov then LineSet(common[f]) * LineSet(cov[f]) else LineSet(common[f])
  {
    r := common;
    var left := cov.Keys;
    while left != {}
      invariant left <= cov.Keys && r.Keys == common.Keys
      invariant forall f :: f in common ==>
                              LineSet(r[f]) == if f in cov &&
                                  f !in left then LineSet(common[f]) * LineSet(cov[f]) else LineSet(common[f])
    {
      var k :| k in left;
      if k in r {
        var both := ToList(LineSet(r[k]) * LineSet(cov[k]));
        r := r[k := both];
      }
      left := left - {k};
    }
  }

  /** Takes the common lines out of one test. */
  method Subtract(cov: Cov, common: Cov) returns (r: Cov)
    ensures r.Keys == cov.Keys
    ensures forall f :: f in cov ==>
                          LineSet(r[f]) == if f in common then LineSet(cov[f]) - LineSet(common[f]) else LineSet(cov[f])
    ensures CleanCov(cov) ==> CleanCov(r)
  {
    r := cov;
    var left := cov.Keys;
    while left != {}
      invariant left <= cov.Keys && r.Keys == cov.Keys && (CleanCov(cov) ==> CleanCov(r))
      invariant forall f :: f in cov ==>
                              LineSet(r[f]) == if f in common &&
                                  f !in left then LineSet(cov[f]) - LineSet(common[f]) else LineSet(cov[f])
    {
      var k :| k in left;
      if k in common {
        var rest := ToList(LineSet(r[k]) - LineSet(common[k]));
        r := r[k := rest];
      }
      left := left - {k};
    }
  }

  // ----- the helper -----

  function LinesIn(info: map<Name, Cov>): Name -> set<Place> {
    n => if n in info then Lines(info[n]) else {}
  }

  function CountIn(info: map<Name, Cov>): Name -> nat {
    n => if n in info then |Lines(info[n])| else 0
  }

  /** What the scan compares, on lists with or without repeats. */
  function ScoreIn(info: map<Name, Cov>, known: set<File>, base: set<Place>): Name -> nat {
    n => if n in info then |Counted(known, base, info[n])| else 0
  }

  /** The order of the scans: the known files and their lines grow by those of each choice. */
  function ScanOrder(info: map<Name, Cov>, cands: seq<Name>, known: set<File>, base: set<Place>): (o: seq<Name>)
    ensures |o| == |cands|
    decreases |cands|
  {
    if cands == [] then []
    else
      var i := Greatest(ScoreIn(info, known, base), cands);
      var c := if cands[i] in info then info[cands[i]] else map[];
      [cands[i]] + ScanOrder(info, Without(cands, i), known + c.Keys, base + Lines(c))
  }

  lemma ScanStep(info: map<Name, Cov>, cands: seq<Name>, known: set<File>, base: set<Place>, order: seq<Name>)
    requires cands != [] && forall n :: n in cands ==> n in info
    ensures var i := Greatest(ScoreIn(info, known, base), cands);
            && cands[i] in info
            && order + ScanOrder(info, cands, known, base) ==
               order + [cands[i]] +
               ScanOrder(info, Without(cands, i), known + info[cands[i]].Keys, base + Lines(info[cands[i]]))
  {
    hide Counted, Lines, Greatest;
    assert cands[Greatest(ScoreIn(info, known, base), cands)] in cands;
  }

  lemma ScanDone(info: map<Name, Cov>, known: set<File>, base: set<Place>, order: seq<Name>)
    ensures order + ScanOrder(info, [], known, base) == order
  {
  }

  ghost predicate Clean(info: map<Name, Cov>) {
    forall n :: n in info ==> CleanCov(info[n])
  }

  ghost predicate LinesOf(known: set<File>, base: set<Place>) {
    forall p :: p in base ==> p.0 in known
  }

  lemma CountedClean(known: set<File>, base: set<Place>, add: Cov)
    requires CleanCov(add) && LinesOf(known, base)
    ensures |Counted(known, base, add)| == |Lines(add) - base|
  {
    CleanPart(known, base, add, add.Keys);
    CountedAll(known, base, add);
    AllParts(add);
  }

  lemma {:induction false} CleanPart(known: set<File>, base: set<Place>, add: Cov, files: set<File>)
    requires CleanCov(add) && LinesOf(known, base) && files <= add.Keys
    ensures |CountedOf(known, base, add, files)| == |Part(add, files) - base|
    decreases |files|
  {
    if files == {} {
      assert CountedOf(known, base, add, files) == {} && Part(add, files) - base == {};
    } else {
      var f :| f in files;
      var rest := files - {f};
      assert files == rest + {f};
      CleanPart(known, base, add, rest);
      PartNext(add, rest, f, base);
      CleanFile(known, base, add, rest, f);
    }
  }

  lemma CleanFile(known: set<File>, base: set<Place>, add: Cov, files: set<File>, f: File)
    requires CleanCov(add) && LinesOf(known, base) && f in add && f !in files
    ensures |CountedOf(known, base, add, files + {f})| ==
            |CountedOf(known, base, add, files)| + |News(add, f, base)|
  {
    var a, b := CountedOf(known, base, add, files + {f}), CountedOf(known, base, add, files);
    var own := if f in known then News(add, f, base) else Below(|add[f]|);
    LineSetSize(add[f]);
    AtSize(f, own);
    assert f !in known ==> News(add, f, base) == LineSet(add[f]);
    forall p ensures p in a <==> p in b || p in At(f, own) {
      assert p.0 == f ==> (p in At(f, own) <==> p.1 in own);
    }
    assert a == b + At(f, own) && b !! At(f, own);
  }

  /** Without repeated lines the scans give the greedy order of the line sets. */
  lemma {:induction false} ScanOrderClean(info: map<Name, Cov>, cands: seq<Name>, known: set<File>, base: set<Place>)
    requires Clean(info) && LinesOf(known, base) && forall n :: n in cands ==> n in info
    ensures ScanOrder(info, cands, known, base) == Order(LinesIn(info), cands, base)
    decreases |cands|
  {
    hide Counted, Lines, CleanCov, Pick, Greatest;
    if cands != [] {
      var i := Pick(LinesIn(info), cands, base);
      forall j | 0 <= j < |cands|
        ensures ScoreIn(info, known, base)(cands[j]) == |LinesIn(info)(cands[j]) - base|
      {
        assert cands[j] in cands;
        CountedClean(known, base, info[cands[j]]);
      }
      GreatestIs(ScoreIn(info, known, base), cands, i);
      var c := info[cands[i]];
      LinesOfGrow(known, base, c);
      ScanOrderClean(info, Without(cands, i), known + c.Keys, base + Lines(c));
    }
  }

  lemma LinesOfGrow(known: set<File>, base: set<Place>, c: Cov)
    requires LinesOf(known, base)
    ensures LinesOf(known + c.Keys, base + Lines(c))
  {
  }

  lemma EntryClean(info: map<Name, Cov>, n: Name)
    requires Clean(info)
    ensures ScoreIn(info, {}, {})(n) == CountIn(info)(n)
  {
    hide Lines, Counted, CleanCov;
    if n in info {
      CountedClean({}, {}, info[n]);
      assert Lines(info[n]) - {} == Lines(info[n]);
    }
  }

  /** Without repeated lines the entries of the lists are the covered lines. */
  lemma EntriesClean(info: map<Name, Cov>, names: seq<Name>)
    requires Clean(info)
    ensures Sorted(ScoreIn(info, {}, {}), names) == Sorted(CountIn(info), names)
  {
    hide Sorted, ScoreIn, CountIn, Clean;
    forall n ensures ScoreIn(info, {}, {})(n) == CountIn(info)(n) {
      EntryClean(info, n);
    }
    SameComparisonsSameOrder(ScoreIn(info, {}, {}), CountIn(info), names);
  }

  /** The lines of the first test's files that every test listing the file covers. */
  function Shared(names: seq<Name>, info: map<Name, Cov>): set<Place>
    requires forall n :: n in names ==> n in info
  {
    if names == [] then {}
    else set p | p in Lines(info[names[0]]) && forall n :: n in names && p.0 in info[n] ==> p.1 in info[n][p.0]
  }

  /** The lines every test covers. */
  function CoveredByAll(names: seq<Name>, info: map<Name, Cov>): set<Place>
    requires forall n :: n in names ==> n in info
  {
    if names == [] then {}
    else set p | p in Lines(info[names[0]]) && forall n :: n in names ==> p in Lines(info[n])
  }

  /** The two agree exactly when no file of the first test that some test lacks holds a line shared
      by all tests that list the file; in particular when all tests list the same files. */
  lemma SharedIsCoveredByAll(names: seq<Name>, info: map<Name, Cov>)
    requires forall n :: n in names ==> n in info
    ensures Shared(names, info) == CoveredByAll(names, info) <==>
            (names == [] ||
             forall f, n, l :: f in info[names[0]] && n in names && f !in info[n] && l in info[names[0]][f] ==>
                                 exists m :: m in names && f in info[m] && l !in info[m][f])
    ensures (forall m, n :: m in names && n in names ==> info[m].Keys == info[n].Keys) ==>
              Shared(names, info) == CoveredByAll(names, info)
  {
    if names != [] {
      var first := names[0];
      assert first in names;
      assert CoveredByAll(names, info) <= Shared(names, info);
      forall f, n, l | f in info[first] && n in names && f !in info[n] && l in info[first][f]
        ensures (f, l) !in CoveredByAll(names, info)
        ensures (f, l) in Shared(names, info) <==> !exists m :: m in names && f in info[m] && l !in info[m][f]
      {
        assert (f, l) !in Lines(info[n]);
      }
      forall p | p in Shared(names, info) && p !in CoveredByAll(names, info)
        ensures exists n :: n in names && p.0 !in info[n]
      {
        var n :| n in names && p !in Lines(info[n]);
        assert p.0 !in info[n];
      }
    }
  }

  /** A file that only the first of two tests lists counts as shared, though the second does not cover it. */
  lemma SharedButNotByAll(a: Name, b: Name, f: File, l: Line)
    requires a != b
    ensures var info := map[a := map[f := [l]], b := map[]];
            (f, l) in Shared([a, b], info) && (f, l) !in CoveredByAll([a, b], info)
  {
    var info: map<Name, Cov> := map[a := map[f := [l]], b := map[]];
    assert l in info[a][f] && (f, l) in Lines(info[a]) && f !in info[b];
    assert b in [a, b];
  }

  /** Drops the files without lines. */
  method NonEmpty(c: Cov) returns (r: Cov)
    ensures r.Keys <= c.Keys
    ensures forall f :: f in c ==> (f in r <==> c[f] != []) && (f in r ==> r[f] == c[f])
  {
    r := map[];
    var left := c.Keys;
    while left != {}
      invariant left <= c.Keys && r.Keys <= c.Keys - left
      invariant forall f :: f in c && f !in left ==> (f in r <==> c[f] != []) && (f in r ==> r[f] == c[f])
    {
      var k :| k in left;
      if |c[k]| > 0 {
        r := r[k := c[k]];
      }
      left := left - {k};
    }
  }

  class Helper {
    var names: seq<Name>  // the tests in the order in which they were loaded
    var info: map<Name, Cov>

    ghost predicate Valid()
      reads this
    {
      Distinct(names) && forall n :: n in names <==> n in info
    }

    /** None when a test is unknown, else what each test covers and the other does not. */
    method CompareTwoCoverages(a: Name, b: Name) returns (r: Option<(Cov, Cov)>)
      ensures r.None? <==> a !in info || b !in info
      ensures r.Some? ==> && Lines(r.value.0) == Lines(info[a]) - Lines(info[b])
                          && Lines(r.value.1) == Lines(info[b]) - Lines(info[a])
    {
      if a !in info || b !in info {
        return None;
      }
      var ab := Difference(info[a], info[b]);
      var ba := Difference(info[b], info[a]);
      r := Some((ab, ba));
    }

    /** The inner scan: the first candidate of the greatest count over base. */
    method MostCov(base: Cov, candidate: seq<Name>) returns (best: nat)
      requires candidate != [] && forall n :: n in candidate ==> n in info
      ensures best < |candidate| && best == Greatest(ScoreIn(info, base.Keys, Lines(base)), candidate)
    {
      hide Greatest, Lines, Counted;
      var idx: int, cnt: int := -1, -1;
      ghost var score := ScoreIn(info, base.Keys, Lines(base));
      for i := 0 to |candidate|
        invariant (i == 0 <==> idx == -1) && -1 <= idx < i && (idx == -1 ==> cnt == -1)
        invariant 0 <= idx ==> cnt == score(candidate[idx])
        invariant forall j :: 0 <= j < i ==> score(candidate[j]) <= cnt && (j < idx ==> score(candidate[j]) < cnt)
      {
        assert candidate[i] in candidate;
        var increment := GetAdditionalCov(base, info[candidate[i]]);
        if increment > cnt {
          cnt := increment;
          idx := i;
        }
      }
      best := idx;
      GreatestIs(score, candidate, best);
    }

    /** The additional-coverage order: a permutation of the tests, and for coverage lists without
        repeats the greedy order of their line sets. */
    method AdditionalCov() returns (order: seq<Name>)
      requires Valid()
      ensures order == ScanOrder(info, names, {}, {})
      ensures multiset(order) == multiset(names)
      ensures Clean(info) ==> order == Order(LinesIn(info), names, {})
    {
      hide Lines, Clean, Order, ScanOrder, Greatest, Counted;
      var candidate, base: Cov := names, map[];
      order := [];
      assert Lines(base) == {} && base.Keys == {} by { NothingCovered(); }
      assert [] + ScanOrder(info, names, {}, {}) == ScanOrder(info, names, {}, {});
      while |candidate| > 0
        invariant multiset(order) + multiset(candidate) == multiset(names)
        invariant forall n :: n in candidate ==> n in info
        invariant order + ScanOrder(info, candidate, base.Keys, Lines(base)) == ScanOrder(info, names, {}, {})
      {
        var i := MostCov(base, candidate);
        var chosen := candidate[i];
        assert chosen in candidate;
        WithoutMultiset(candidate, i);
        ScanStep(info, candidate, base.Keys, Lines(base), order);
        base := CombineCov(base, info[chosen]);
        candidate := Without(candidate, i);
        order := order + [chosen];
      }
      ScanDone(info, base.Keys, Lines(base), order);
      if Clean(info) {
        ScanOrderClean(info, names, {}, {});
      }
    }

    /** The tests sorted by the entries in their lists, greatest first, and so by their covered lines when no list
        repeats one. */
    method TotalCov() returns (order: seq<Name>)
      requires Valid()
      ensures order == Sorted(ScoreIn(info, {}, {}), names)
      ensures Clean(info) ==> order == Sorted(CountIn(info), names)
    {
      hide Lines, Distinct, CleanCov, Sorted, Counted;
      var counts: map<Name, nat> := map[];
      for i := 0 to |names|
        invariant counts.Keys == set n | n in names[..i]
        invariant forall n :: n in names[..i] ==> counts[n] == ScoreIn(info, {}, {})(n)
      {
        assert names[i] in names;
        var cnt := CountLines(info[names[i]]);
        counts := counts[names[i] := cnt];
        assert names[..i + 1] == names[..i] + [names[i]];
      }
      assert names[..|names|] == names;
      var count := n => if n in counts then counts[n] else 0;
      order := Sorted(count, names);
      SameComparisonsSameOrder(count, ScoreIn(info, {}, {}), names);
      if Clean(info) {
        EntriesClean(info, names);
      }
    }

    /** Takes the shared lines out of every test; files and test order stay. */
    method RemoveCommon()
      requires Valid()
      modifies `info
      ensures Valid() && info.Keys == old(info).Keys
      ensures forall n :: n in names ==>
                            n in info && Reduced(info[n], old(info)[n], Shared(names, old(info)))
    {
      hide Shared, Reduced, LineSet, CleanCov, Lines, Distinct;
      if names != [] {
        var common := CommonLines(names, info);
        ghost var was := info;
        for i := 0 to |names|
          invariant info.Keys == was.Keys && ReducedUpTo(info, was, names, Shared(names, was), i)
        {
          assert info[names[i]] == was[names[i]];
          var rest := Subtract(info[names[i]], common);
          SubtractReduces(was[names[i]], rest, common, Shared(names, was));
          ReduceNext(info, was, names, Shared(names, was), i, rest);
          info := info[names[i] := rest];
        }
      }
    }
  }

  ghost predicate Reduced(now: Cov, was: Cov, shared: set<Place>) {
    Lines(now) == Lines(was) - shared && now.Keys == was.Keys && (CleanCov(was) ==> CleanCov(now))
  }

  /** The first i tests are reduced, the others as they were. */
  ghost predicate ReducedUpTo(now: map<Name, Cov>, was: map<Name, Cov>, names: seq<Name>, shared: set<Place>, i: nat) {
    forall k :: 0 <= k < |names| ==>
                  && names[k] in now && names[k] in was
                  && if k < i then Reduced(now[names[k]], was[names[k]], shared) else now[names[k]] == was[names[k]]
  }

  lemma ReduceNext(now: map<Name, Cov>, was: map<Name, Cov>, names: seq<Name>, shared: set<Place>, i: nat, c: Cov)
    requires Distinct(names) && ReducedUpTo(now, was, names, shared, i)
    requires i < |names| && Reduced(c, was[names[i]], shared)
    ensures ReducedUpTo(now[names[i] := c], was, names, shared, i + 1)
  {
    hide Reduced;
  }

  /** The lines of the first test narrowed by every test, without the files left empty. */
  method CommonLines(names: seq<Name>, info: map<Name, Cov>) returns (common: Cov)
    requires names != [] && forall n :: n in names ==> n in info
    ensures forall p :: p in Shared(names, info) <==> p.0 in common && p.1 in common[p.0]
    ensures forall f :: f in common ==> common[f] != []
  {
    assert names[0] in names;
    var first := info[names[0]];
    common := first;
    for i := 0 to |names|
      invariant common.Keys == first.Keys
      invariant forall f, l :: f in first ==> (l in LineSet(common[f])
                 <==> l in first[f] && InAll(names[..i], info, f, l))
    {
      assert names[i] in names;
      ghost var before := common;
      common := IntersectInto(common, info[names[i]]);
      assert names[..i + 1] == names[..i] + [names[i]];
      forall f, l | f in first
        ensures l in LineSet(common[f]) <==> l in first[f] && InAll(names[..i + 1], info, f, l)
      {
        assert l in LineSet(before[f]) <==> l in first[f] && InAll(names[..i], info, f, l);
      }
    }
    assert names[..|names|] == names;
    ghost var narrowed := common;
    common := NonEmpty(common);
    forall p ensures p in Shared(names, info) <==> p.0 in common && p.1 in common[p.0] {
      if p.0 in first {
        assert p.1 in LineSet(narrowed[p.0]) <==> p.1 in narrowed[p.0];
        assert p in Shared(names, info) <==> p.1 in first[p.0] && InAll(names, info, p.0, p.1);
      }
    }
  }

  ghost predicate InAll(names: seq<Name>, info: map<Name, Cov>, f: File, l: Line) {
    forall n :: n in names && n in info && f in info[n] ==> l in info[n][f]
  }

  lemma NothingCovered()
    ensures Lines(map[]) == {}
  {
  }

  lemma SubtractShared(cov: Cov, rest: Cov, common: Cov, shared: set<Place>)
    requires rest.Keys == cov.Keys
    requires forall f :: f in cov ==>
                           LineSet(rest[f]) ==
                           if f in common then LineSet(cov[f]) - LineSet(common[f]) else LineSet(cov[f])
    requires forall p :: p in shared <==> p.0 in common && p.1 in common[p.0]
    ensures Lines(rest) == Lines(cov) - shared
  {
    forall p ensures p in Lines(rest) <==> p in Lines(cov) && p !in shared {
      if p.0 in cov {
        assert p.1 in rest[p.0] <==> p.1 in LineSet(rest[p.0]);
        assert p.1 in cov[p.0] <==> p.1 in LineSet(cov[p.0]);
        assert p.0 in common ==> (p.1 in common[p.0] <==> p.1 in LineSet(common[p.0]));
      }
    }
  }

  lemma SubtractReduces(cov: Cov, rest: Cov, common: Cov, shared: set<Place>)
    requires rest.Keys == cov.Keys && (CleanCov(cov) ==> CleanCov(rest))
    requires forall f :: f in cov ==>
                           LineSet(rest[f]) ==
                           if f in common then LineSet(cov[f]) - LineSet(common[f]) else LineSet(cov[f])
    requires forall p :: p in shared <==> p.0 in common && p.1 in common[p.0]
    ensures Reduced(rest, cov, shared)
  {
    SubtractShared(cov, rest, common, shared);
  }

  /** The number of entries in all line lists of a test. */
  method CountLines(c: Cov) returns (cnt: nat)
    ensures cnt == |Counted({}, {}, c)|
  {
    hide Counted, CountedOf, Lines;
    cnt := 0;
    var left := c.Keys;
    ghost var done := {};
    CountedAll({}, {}, c);
    NothingCovered();
    ghost var none: Cov := map[];
    assert none.Keys == {} && Lines(none) == {};
    while left != {}
      invariant done == c.Keys - left && left <= c.Keys
      invariant cnt == |CountedOf({}, {}, c, done)|
    {
      var k :| k in left;
      CountedNext(none, c, done, k);
      cnt := cnt + |c[k]|;
      left := left - {k};
      done := done + {k};
    }
    assert done == c.Keys;
  }

  /** now is was with the shared lines taken out of every test. */
  ghost predicate Removed(names: seq<Name>, was: map<Name, Cov>, now: map<Name, Cov>) {
    && (forall n :: n in names ==> n in was && n in now)
    && forall n :: n in names ==> Lines(now[n]) == Lines(was[n]) - Shared(names, was)
  }

  lemma SharedEverywhere(names: seq<Name>, was: map<Name, Cov>, now: map<Name, Cov>, n: Name)
    requires Removed(names, was, now) && Shared(names, was) == CoveredByAll(names, was) && n in names
    ensures Shared(names, was) <= Lines(was[n])
    ensures |Lines(was[n])| == |Lines(now[n])| + |Shared(names, was)|
  {
    var d := Shared(names, was);
    assert Lines(was[n]) == Lines(now[n]) + d;
  }

  /** When what is removed is what every test covers, the removal keeps the difference of any two
      tests. */
  lemma RemovalKeepsDifferences(names: seq<Name>, was: map<Name, Cov>, now: map<Name, Cov>, a: Name, b: Name)
    requires Removed(names, was, now) && Shared(names, was) == CoveredByAll(names, was) && a in names && b in names
    ensures Lines(now[a]) - Lines(now[b]) == Lines(was[a]) - Lines(was[b])
  {
    SharedEverywhere(names, was, now, b);
  }

  /** It also keeps the total order and the additional order, ties included. */
  lemma RemovalKeepsOrders(names: seq<Name>, was: map<Name, Cov>, now: map<Name, Cov>)
    requires Removed(names, was, now) && Shared(names, was) == CoveredByAll(names, was)
    ensures Sorted(CountIn(now), names) == Sorted(CountIn(was), names)
    ensures Order(LinesIn(now), names, {}) == Order(LinesIn(was), names, {})
  {
    hide Lines, Order, Sorted, Shared, CoveredByAll;
    var d := Shared(names, was);
    forall n | n in names
      ensures d <= Lines(was[n]) && |Lines(was[n])| == |Lines(now[n])| + |d|
    {
      SharedEverywhere(names, was, now, n);
    }
    SameComparisonsSameOrder(CountIn(now), CountIn(was), names);
    OrderIgnoresCommon(LinesIn(was), LinesIn(now), names, d);
  }
}
