/** The searches over graphs that are loaded from records, said in terms of the records alone. */
module CallRecords {

  import opened Collections
  import opened CallGraph
  import opened RelatedMethods

  /** The function has a record, or is named in one. */
  ghost predicate Named(records: seq<Record>, x: string) {
    exists i :: 0 <= i < |records| && (records[i].name == x || x in records[i].callers)
  }

  /** The last record of a lists b. */
  ghost predicate Lists(records: seq<Record>, a: string, b: string) {
    exists i: nat :: LastOf(records, i, a) && b in records[i].callers
  }

  ghost predicate LastOf(records: seq<Record>, i: nat, a: string) {
    i < |records| && records[i].name == a && forall j :: i < j < |records| ==> records[j].name != a
  }

  /** A chain of functions in which each lists the next. */
  ghost predicate Chain(records: seq<Record>, p: seq<string>, a: string, b: string) {
    && p != [] && p[0] == a && p[|p| - 1] == b && Named(records, a)
    && forall i :: 0 < i < |p| ==> Lists(records, p[i - 1], p[i])
  }

  ghost predicate Leads(records: seq<Record>, a: string, b: string) {
    exists p :: Chain(records, p, a, b)
  }

  /** No record names x as one it lists, and the last record of x is of a file with that text in its path. */
  ghost predicate TopRecorded(records: seq<Record>, file: string, x: string) {
    && (forall i :: 0 <= i < |records| ==> x !in records[i].callers)
    && exists i: nat :: LastOf(records, i, x) && records[i].filePath.Some? && Contains(records[i].filePath.value, file)
  }

  /** A leaf: the function is named, and its last record, if it has one, lists nothing. */
  ghost predicate LeafRecorded(records: seq<Record>, x: string) {
    Named(records, x) && forall y :: !Lists(records, x, y)
  }

  /** The recursive searches for the last record find it. */
  lemma {:induction false} LastFound(records: seq<Record>, a: string) returns (i: nat)
    ensures i <= |records|
    ensures if i == |records|
            then (forall j :: 0 <= j < |records| ==> records[j].name != a) && LastCallers(records, a) == [] &&
                 LastFile(records, a) == None
            else LastOf(records, i, a) && LastCallers(records, a) == records[i].callers &&
                 LastFile(records, a) == records[i].filePath
  {
    i := 0;
    if records != [] {
      var last := |records| - 1;
      if records[last].name == a {
        i := last;
      } else {
        i := LastFound(records[..last], a);
        if i == last { i := |records|; }
        assert forall j :: 0 <= j < last ==> records[..last][j] == records[j];
      }
    }
  }

  lemma LastUnique(records: seq<Record>, i: nat, j: nat, a: string)
    requires LastOf(records, i, a) && LastOf(records, j, a)
    ensures i == j
  {
  }

  lemma LastCallersListed(records: seq<Record>, a: string, b: string)
    ensures b in LastCallers(records, a) <==> Lists(records, a, b)
  {
    hide LastCallers, LastFile;
    var i := LastFound(records, a);
    if Lists(records, a, b) {
      var j: nat :| LastOf(records, j, a) && b in records[j].callers;
      LastUnique(records, i, j, a);
    }
  }

  lemma LoadedEdge(records: seq<Record>, a: string, b: string)
    ensures Edge(Loaded(map[], records), a, b) <==> Lists(records, a, b)
  {
    hide Loaded, LastCallers, Lists;
    LoadedEdges(records, b, a);
    LastCallersListed(records, a, b);
  }

  /** In the loaded graph one function reaches another exactly when the records lead from it to the other. */
  lemma LoadedReach(records: seq<Record>, a: string, b: string)
    ensures Reach(Loaded(map[], records), a, b) <==> Leads(records, a, b)
  {
    hide Loaded, Edge, Lists;
    var g := Loaded(map[], records);
    LoadedNodes(records, a);
    forall p ensures Path(g, p, a, b) <==> Chain(records, p, a, b) {
      forall i | 0 < i < |p| ensures Edge(g, p[i - 1], p[i]) <==> Lists(records, p[i - 1], p[i]) {
        LoadedEdge(records, p[i - 1], p[i]);
      }
    }
  }

  lemma LoadedLeaf(records: seq<Record>, x: string)
    ensures Leaf(Loaded(map[], records), x) <==> LeafRecorded(records, x)
  {
    hide Loaded, Lists, LastFile;
    var g := Loaded(map[], records);
    LoadedNodes(records, x);
    forall y ensures Edge(g, x, y) <==> Lists(records, x, y) {
      LoadedEdge(records, x, y);
    }
    if x in g && g[x].caller != [] {
      assert g[x].caller[0] in g[x].caller && Edge(g, x, g[x].caller[0]);
    }
  }

  lemma NothingCalls(records: seq<Record>, x: string)
    ensures var g := Loaded(map[], records);
            x in g ==> (g[x].callee == [] <==> forall i :: 0 <= i < |records| ==> x !in records[i].callers)
  {
    hide Loaded, LastCallers;
    var g := Loaded(map[], records);
    if x in g {
      forall y ensures ListsCallee(g, x, y) <==> Recorded(records, y, x) {
        LoadedEdges(records, x, y);
      }
      if g[x].callee != [] {
        var y := g[x].callee[0];
        assert y in g[x].callee && ListsCallee(g, x, y);
        assert Recorded(records, y, x);
      }
      forall i | 0 <= i < |records| && x in records[i].callers ensures g[x].callee != [] {
        assert Recorded(records, records[i].name, x);
        assert ListsCallee(g, x, records[i].name);
      }
    }
  }

  /** The top functions of a loaded graph, by its records. */
  lemma LoadedTop(records: seq<Record>, file: string, x: string)
    ensures Uncalled(Loaded(map[], records), file, x) <==> TopRecorded(records, file, x)
  {
    hide Loaded, Contains;
    var g := Loaded(map[], records);
    LoadedNodes(records, x);
    NothingCalls(records, x);
    var k := LastFound(records, x);
    hide LastFile, LastCallers;
    if TopRecorded(records, file, x) {
      var i: nat :| LastOf(records, i, x) && records[i].filePath.Some? && Contains(records[i].filePath.value, file);
      LastUnique(records, i, k, x);
    }
  }

  // ----- from records to kernel functions -----

  ghost predicate TopByRecords(test: seq<Record>, selfTest: bool, file: string, x: string) {
    if selfTest then x == "main" else TopRecorded(test, file, x)
  }

  /** The leaf below a top function of the test, by the records of the test. */
  ghost predicate GroundsByRecords(test: seq<Record>, selfTest: bool, file: string, leaf: string) {
    exists top :: TopByRecords(test, selfTest, file, top) && Leads(test, top, leaf) && LeafRecorded(test, leaf)
  }

  ghost predicate UsesByRecords(test: seq<Record>, glibc: Nodes, selfTest: bool, file: string, syscalls: set<string>,
      s: string) {
    exists leaf :: GroundsByRecords(test, selfTest, file, leaf) && s in syscalls && Reach(glibc, leaf, s)
  }

  ghost predicate RelatedByRecords(test: seq<Record>, glibc: Nodes, kernel: seq<Record>, table: map<string, string>,
      selfTest: bool, file: string, syscalls: set<string>, m: string) {
    exists s :: UsesByRecords(test, glibc, selfTest, file, syscalls, s) && s in table && Leads(kernel, table[s], m)
  }

  lemma LoadedGrounds(test: seq<Record>, selfTest: bool, file: string, leaf: string)
    ensures Grounds(Loaded(map[], test), selfTest, file, leaf) <==> GroundsByRecords(test, selfTest, file, leaf)
  {
    hide Loaded, Uncalled, TopRecorded, Reach, Leads, Leaf, LeafRecorded;
    var g := Loaded(map[], test);
    LoadedLeaf(test, leaf);
    forall top
      ensures TopOf(g, selfTest, file, top) <==> TopByRecords(test, selfTest, file, top)
      ensures Reach(g, top, leaf) <==> Leads(test, top, leaf)
    {
      LoadedTop(test, file, top);
      LoadedReach(test, top, leaf);
    }
  }

  lemma LoadedUses(test: seq<Record>, glibc: Nodes, selfTest: bool, file: string, syscalls: set<string>, s: string)
    ensures Uses(Loaded(map[], test), glibc, selfTest, file, syscalls, s) <==>
            UsesByRecords(test, glibc, selfTest, file, syscalls, s)
  {
    hide Loaded, Grounds, GroundsByRecords, Reach;
    forall leaf
      ensures Grounds(Loaded(map[], test), selfTest, file, leaf) <==> GroundsByRecords(test, selfTest, file, leaf)
    {
      LoadedGrounds(test, selfTest, file, leaf);
    }
  }

  lemma LoadedRelated(test: seq<Record>, glibc: Nodes, kernel: seq<Record>, table: map<string, string>, selfTest: bool,
      file: string, syscalls: set<string>, m: string)
    ensures Related(Loaded(map[], test), glibc, Loaded(map[], kernel), table, selfTest, file, syscalls, m) <==>
            RelatedByRecords(test, glibc, kernel, table, selfTest, file, syscalls, m)
  {
    hide Loaded, Uses, UsesByRecords, Reach, Leads;
    var g, k := Loaded(map[], test), Loaded(map[], kernel);
    forall s
      ensures Uses(g, glibc, selfTest, file, syscalls, s) <==> UsesByRecords(test, glibc, selfTest, file, syscalls, s)
      ensures s in table ==> (Reach(k, table[s], m) <==> Leads(kernel, table[s], m))
    {
      LoadedUses(test, glibc, selfTest, file, syscalls, s);
      if s in table { LoadedReach(kernel, table[s], m); }
    }
  }

  method Load(records: seq<Record>) returns (g: CallGraph)
    ensures fresh(g) && g.Valid() && g.nodeMap == Loaded(map[], records)
  {
    g := new CallGraph();
    g.LoadFromSource(records);
  }

  /** From the records of test and kernel to the kernel functions behind the test: exactly those behind the handler
      of a system call that some leaf below a top function of the test reaches. */
  method RelatedFromRecords(test: seq<Record>, glibc: CallGraph, kernel: seq<Record>, table: map<string, string>,
      selfTest: bool, file: string, syscalls: set<string>) returns (r: Option<set<string>>)
    requires glibc.Valid()
    ensures r.None? <==> selfTest && !Named(test, "main")
    ensures r.Some? ==> forall m :: m in r.value <==>
                                    RelatedByRecords(test, glibc.nodeMap, kernel, table, selfTest, file, syscalls, m)
  {
    hide Loaded, Related, RelatedByRecords;
    var t := Load(test);
    var k := Load(kernel);
    r := GetRelatedMethods(Some(t), glibc, k, table, selfTest, file, syscalls);
    LoadedNodes(test, "main");
    forall m
      ensures Related(t.nodeMap, glibc.nodeMap, k.nodeMap, table, selfTest, file, syscalls, m) <==>
              RelatedByRecords(test, glibc.nodeMap, kernel, table, selfTest, file, syscalls, m)
    {
      LoadedRelated(test, glibc.nodeMap, kernel, table, selfTest, file, syscalls, m);
    }
  }

  /** The top functions of a file, by the records of the graph. */
  method TopFromRecords(records: seq<Record>, file: string) returns (r: set<string>)
    ensures forall x :: x in r <==> TopRecorded(records, file, x)
  {
    hide Loaded, Uncalled, TopRecorded;
    var g := Load(records);
    r := g.GetTopFunc(file);
    forall x ensures Uncalled(g.nodeMap, file, x) <==> TopRecorded(records, file, x) {
      LoadedTop(records, file, x);
    }
  }
}
