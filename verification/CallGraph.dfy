/** Call graphs: nodes by function name, edge building from records, and the worklist searches. */
module CallGraph {

  import opened Collections

  /** Nodes refer to each other by name; the graph holds one node per name. */
  datatype GraphNode = GraphNode(filePath: Option<string>, caller: seq<string>, callee: seq<string>)

  type Nodes = map<string, GraphNode>

  const BLANK := GraphNode(None, [], [])

  /** What the dump says about one function. */
  datatype Record = Record(name: string, filePath: Option<string>, callers: seq<string>)

  /** Every edge leads to a node of the graph. */
  ghost predicate Closed(g: Nodes) {
    forall n, c :: n in g && c in g[n].caller ==> c in g
  }

  ghost predicate Edge(g: Nodes, a: string, b: string) {
    a in g && b in g[a].caller
  }

  // ----- paths -----

  ghost predicate Path(g: Nodes, p: seq<string>, a: string, b: string) {
    && p != [] && p[0] == a && p[|p| - 1] == b && a in g
    && forall i :: 0 < i < |p| ==> Edge(g, p[i - 1], p[i])
  }

  /** b can be reached from the node a by following edges, zero or more. */
  ghost predicate Reach(g: Nodes, a: string, b: string) {
    exists p :: Path(g, p, a, b)
  }

  lemma ReachSelf(g: Nodes, a: string)
    requires a in g
    ensures Reach(g, a, a)
  {
    assert Path(g, [a], a, a);
  }

  lemma ReachStep(g: Nodes, a: string, b: string, c: string)
    requires Reach(g, a, b) && Edge(g, b, c)
    ensures Reach(g, a, c)
  {
    var p :| Path(g, p, a, b);
    var q := p + [c];
    forall i | 0 < i < |q| ensures Edge(g, q[i - 1], q[i]) {
      assert i < |p| ==> Edge(g, p[i - 1], p[i]);
    }
    assert Path(g, q, a, c);
  }

  /** A set that holds the start and is closed under edges holds the end of every path. */
  lemma {:induction false} PathStays(g: Nodes, p: seq<string>, a: string, b: string, s: set<string>)
    requires Path(g, p, a, b) && a in s
    requires forall x, y :: x in s && Edge(g, x, y) ==> y in s
    ensures b in s
    decreases |p|
  {
    if 1 < |p| {
      var last := |p| - 1;
      assert Edge(g, p[last - 1], p[last]);
      assert Path(g, p[..last], a, p[last - 1]);
      PathStays(g, p[..last], a, p[last - 1], s);
    }
  }

  // ----- the worklist -----

  /** Everything found can be reached, and what is still to be found is behind the stack. */
  ghost predicate Searching(g: Nodes, root: string, visited: set<string>, stack: seq<string>) {
    && visited <= g.Keys
    && (root in visited || root in stack)
    && (forall x :: x in visited ==> Reach(g, root, x))
    && (forall x :: x in stack ==> x in g && Reach(g, root, x))
    && (forall x, y :: x in visited && Edge(g, x, y) ==> y in visited || y in stack)
  }

  lemma SearchStart(g: Nodes, root: string)
    requires root in g
    ensures Searching(g, root, {}, [root])
  {
    ReachSelf(g, root);
  }

  lemma SearchSkip(g: Nodes, root: string, visited: set<string>, stack: seq<string>)
    requires Searching(g, root, visited, stack) && stack != [] && stack[|stack| - 1] in visited
    ensures Searching(g, root, visited, stack[..|stack| - 1])
  {
    var rest := stack[..|stack| - 1];
    assert stack == rest + [stack[|stack| - 1]];
  }

  lemma SearchVisit(g: Nodes, root: string, visited: set<string>, stack: seq<string>)
    requires Closed(g) && Searching(g, root, visited, stack) && stack != []
    ensures var cur := stack[|stack| - 1];
            cur in g && Searching(g, root, visited + {cur}, stack[..|stack| - 1] + g[cur].caller)
  {
    var cur, rest := stack[|stack| - 1], stack[..|stack| - 1];
    assert cur in stack && stack == rest + [cur];
    forall x | x in g[cur].caller ensures x in g && Reach(g, root, x) {
      assert Edge(g, cur, x);
      ReachStep(g, root, cur, x);
    }
  }

  lemma SearchDone(g: Nodes, root: string, visited: set<string>)
    requires Searching(g, root, visited, [])
    ensures forall x :: x in visited <==> Reach(g, root, x)
  {
    forall x | Reach(g, root, x) ensures x in visited {
      var p :| Path(g, p, root, x);
      PathStays(g, p, root, x, visited);
    }
  }

  class CallGraph {
    var nodeMap: Nodes

    ghost predicate Valid()
      reads this
    {
      Closed(nodeMap)
    }

    constructor ()
      ensures nodeMap == map[] && Valid()
    {
      nodeMap := map[];
    }

    /** Afterwards the name has a node; no existing node changes, and a new one has no edges and no file. */
    method GetOrCreate(name: string)
      modifies this
      ensures nodeMap.Keys == old(nodeMap).Keys + {name}
      ensures forall x :: x in old(nodeMap) ==> nodeMap[x] == old(nodeMap)[x]
      ensures name !in old(nodeMap) ==>
                nodeMap[name].caller == [] == nodeMap[name].callee && nodeMap[name].filePath == None
    {
      if name !in nodeMap {
        nodeMap := nodeMap[name := BLANK];
      }
    }

    method CreateAll(names: seq<string>)
      modifies this
      ensures nodeMap == CreatedAll(old(nodeMap), names)
    {
      for j := 0 to |names|
        invariant nodeMap == CreatedAll(old(nodeMap), names[..j])
      {
        assert names[..j + 1][..j] == names[..j];
        GetOrCreate(names[j]);
        CreatedOne(CreatedAll(old(nodeMap), names[..j]), nodeMap, names[j]);
      }
      assert names[..|names|] == names;
    }

    method AppendCallee(name: string, callers: seq<string>)
      requires forall c :: c in callers ==> c in nodeMap
      modifies this
      ensures nodeMap == CalledBy(old(nodeMap), name, callers)
    {
      for j := 0 to |callers|
        invariant nodeMap == CalledBy(old(nodeMap), name, callers[..j])
      {
        assert callers[..j + 1][..j] == callers[..j];
        CalledByKeys(old(nodeMap), name, callers[..j]);
        var c := callers[j];
        nodeMap := nodeMap[c := nodeMap[c].(callee := nodeMap[c].callee + [name])];
      }
      assert callers[..|callers|] == callers;
    }

    /** One record of the dump: the node is created or refreshed, its callers replaced, and it is appended to
        the callees of each of them. */
    method Enter(r: Record)
      modifies this
      ensures nodeMap == Entered(old(nodeMap), r)
    {
      hide CreatedAll, CalledBy;
      GetOrCreate(r.name);
      CreatedOne(old(nodeMap), nodeMap, r.name);
      nodeMap := nodeMap[r.name := nodeMap[r.name].(filePath := r.filePath)];
      CreatedAllKeys(nodeMap, r.callers);
      CreateAll(r.callers);
      nodeMap := nodeMap[r.name := nodeMap[r.name].(caller := r.callers)];
      AppendCallee(r.name, r.callers);
    }

    /** load_from_source, after the text is split into records. */
    method LoadFromSource(records: seq<Record>)
      requires Valid()
      modifies this
      ensures Valid() && nodeMap == Loaded(old(nodeMap), records)
    {
      hide Entered;
      for i := 0 to |records|
        invariant nodeMap == Loaded(old(nodeMap), records[..i])
      {
        assert records[..i + 1][..i] == records[..i];
        Enter(records[i]);
      }
      assert records[..|records|] == records;
      LoadedClosed(old(nodeMap), records);
    }

    /** get_ground_func: the leaves reachable from the root; a missing root is an error. */
    method GetGroundFunc(root: string) returns (r: Option<set<string>>)
      requires Valid()
      ensures r.None? <==> root !in nodeMap
      ensures r.Some? ==> forall x ::
                            x in r.value <==> Reach(nodeMap, root, x) && x in nodeMap && nodeMap[x].caller == []
    {
      if root !in nodeMap {
        return None;
      }
      var visited: set<string>, ground: set<string>, stack := {}, {}, [root];
      SearchStart(nodeMap, root);
      while stack != []
        invariant Searching(nodeMap, root, visited, stack)
        invariant forall x :: x in ground <==> x in visited && nodeMap[x].caller == []
        decreases nodeMap.Keys - visited, |stack|
      {
        var cur := stack[|stack| - 1];
        if cur in visited {
          SearchSkip(nodeMap, root, visited, stack);
          stack := stack[..|stack| - 1];
        } else {
          SearchVisit(nodeMap, root, visited, stack);
          visited, stack := visited + {cur}, stack[..|stack| - 1];
          if |nodeMap[cur].caller| == 0 {
            assert stack + nodeMap[cur].caller == stack;
            ground := ground + {cur};
          } else {
            stack := stack + nodeMap[cur].caller;
          }
        }
      }
      SearchDone(nodeMap, root, visited);
      r := Some(ground);
    }

    /** get_all_call: everything reachable from the root; nothing for a missing root. */
    method GetAllCall(root: Option<string>) returns (visited: set<string>)
      requires Valid()
      ensures forall x :: x in visited <==> root.Some? && Reach(nodeMap, root.value, x)
    {
      visited := {};
      if root.None? || root.value !in nodeMap {
        return;
      }
      var stack := [root.value];
      SearchStart(nodeMap, root.value);
      while stack != []
        invariant Searching(nodeMap, root.value, visited, stack)
        decreases nodeMap.Keys - visited, |stack|
      {
        var cur := stack[|stack| - 1];
        if cur in visited {
          SearchSkip(nodeMap, root.value, visited, stack);
          stack := stack[..|stack| - 1];
        } else {
          SearchVisit(nodeMap, root.value, visited, stack);
          visited, stack := visited + {cur}, stack[..|stack| - 1] + nodeMap[cur].caller;
        }
      }
      SearchDone(nodeMap, root.value, visited);
    }

    /** get_syscall: the reachable functions that are system calls. */
    method GetSyscall(syscalls: set<string>, root: string) returns (r: set<string>)
      requires Valid()
      ensures forall x :: x in r <==> x in syscalls && Reach(nodeMap, root, x)
    {
      r := {};
      if root !in nodeMap {
        return;
      }
      var visited: set<string>, stack := {}, [root];
      SearchStart(nodeMap, root);
      while stack != []
        invariant Searching(nodeMap, root, visited, stack)
        invariant forall x :: x in r <==> x in visited && x in syscalls
        decreases nodeMap.Keys - visited, |stack|
      {
        var cur := stack[|stack| - 1];
        if cur in visited {
          SearchSkip(nodeMap, root, visited, stack);
          stack := stack[..|stack| - 1];
        } else {
          SearchVisit(nodeMap, root, visited, stack);
          visited, stack := visited + {cur}, stack[..|stack| - 1] + nodeMap[cur].caller;
          if cur in syscalls {
            r := r + {cur};
          }
        }
      }
      SearchDone(nodeMap, root, visited);
    }

    /** get_top_func: the functions of the file that nothing calls. */
    method GetTopFunc(file: string) returns (r: set<string>)
      ensures forall x :: x in r <==> Uncalled(nodeMap, file, x)
    {
      hide IsTop, Uncalled;
      r := {};
      var left := nodeMap.Keys;
      assert forall x :: Uncalled(nodeMap, file, x) ==> x in nodeMap by { UncalledKnown(nodeMap, file); }
      while left != {}
        invariant left <= nodeMap.Keys
        invariant forall x :: x in r <==> x !in left && Uncalled(nodeMap, file, x)
        invariant forall x :: Uncalled(nodeMap, file, x) ==> x in nodeMap
        decreases left
      {
        var x :| x in left;
        left := left - {x};
        TopIsUncalled(nodeMap, file, x);
        if IsTop(nodeMap[x], file) {
          r := r + {x};
        }
      }
    }
  }

  predicate IsTop(n: GraphNode, file: string) {
    n.filePath.Some? && Within(file, n.filePath.value) && n.callee == []
  }

  /** a occurs in b as a substring. */
  predicate Within(a: string, b: string) {
    exists i :: 0 <= i <= |b| && OccursAt(a, b, i)
  }

  predicate OccursAt(a: string, b: string, i: nat) {
    i + |a| <= |b| && b[i..i + |a|] == a
  }

  /** b has a somewhere in it. */
  ghost predicate Contains(b: string, a: string) {
    exists u, v :: b == u + a + v
  }

  /** The function is known in a file whose path holds the text, and calls of it are listed nowhere. */
  ghost predicate Uncalled(g: Nodes, file: string, x: string) {
    x in g && g[x].filePath.Some? && Contains(g[x].filePath.value, file) && g[x].callee == []
  }

  lemma UncalledKnown(g: Nodes, file: string)
    ensures forall x :: Uncalled(g, file, x) ==> x in g
  {
  }

  lemma WithinContains(a: string, b: string)
    ensures Within(a, b) <==> Contains(b, a)
  {
    if Within(a, b) {
      var i :| 0 <= i <= |b| && OccursAt(a, b, i);
      assert b == b[..i] + a + b[i + |a|..];
    }
    if Contains(b, a) {
      var u, v :| b == u + a + v;
      assert OccursAt(a, b, |u|);
    }
  }

  lemma TopIsUncalled(g: Nodes, file: string, x: string)
    requires x in g
    ensures IsTop(g[x], file) <==> Uncalled(g, file, x)
  {
    if g[x].filePath.Some? { WithinContains(file, g[x].filePath.value); }
  }

  // ----- edge building -----

  function Created(g: Nodes, name: string): Nodes {
    if name in g then g else g[name := BLANK]
  }

  lemma CreatedOne(g: Nodes, h: Nodes, name: string)
    requires h.Keys == g.Keys + {name} && forall x :: x in g ==> h[x] == g[x]
    requires name !in g ==> h[name].caller == [] == h[name].callee && h[name].filePath == None
    ensures h == Created(g, name)
  {
    assert name !in g ==> h[name] == BLANK;
  }

  function CreatedAll(g: Nodes, names: seq<string>): Nodes {
    if names == [] then g else Created(CreatedAll(g, names[..|names| - 1]), names[|names| - 1])
  }

  /** Appends the name to the callee list of each caller. */
  function CalledBy(g: Nodes, name: string, callers: seq<string>): Nodes
  {
    if callers == [] then g
    else
      var h := CalledBy(g, name, callers[..|callers| - 1]);
      var c := callers[|callers| - 1];
      if c in h then h[c := h[c].(callee := h[c].callee + [name])] else h
  }

  function Entered(g: Nodes, r: Record): Nodes {
    var h := Created(g, r.name);
    var h1 := CreatedAll(h[r.name := h[r.name].(filePath := r.filePath)], r.callers);
    CalledBy(if r.name in h1 then h1[r.name := h1[r.name].(caller := r.callers)] else h1, r.name, r.callers)
  }

  function Loaded(g: Nodes, records: seq<Record>): Nodes {
    if records == [] then g else Entered(Loaded(g, records[..|records| - 1]), records[|records| - 1])
  }

  lemma {:induction false} CreatedAllKeys(g: Nodes, names: seq<string>)
    ensures CreatedAll(g, names).Keys == g.Keys + set x | x in names
    ensures forall x :: x in CreatedAll(g, names) ==> CreatedAll(g, names)[x] == if x in g then g[x] else BLANK
  {
    if names != [] {
      CreatedAllKeys(g, names[..|names| - 1]);
      assert names == names[..|names| - 1] + [names[|names| - 1]];
    }
  }

  lemma {:induction false} CalledByKeys(g: Nodes, name: string, callers: seq<string>)
    ensures CalledBy(g, name, callers).Keys == g.Keys
    ensures forall x :: x in g ==> var n := CalledBy(g, name, callers)[x];
                                   n.caller == g[x].caller && n.filePath == g[x].filePath
    ensures forall x, y :: x in g ==>
                             (y in CalledBy(g, name, callers)[x].callee <==>
                              y in g[x].callee || (y == name && x in callers))
  {
    if callers != [] {
      CalledByKeys(g, name, callers[..|callers| - 1]);
      assert callers == callers[..|callers| - 1] + [callers[|callers| - 1]];
    }
  }

  /** What one record changes: its own caller list is replaced, and it is added to each caller's callees. */
  lemma EnteredShape(g: Nodes, r: Record)
    ensures Entered(g, r).Keys == g.Keys + {r.name} + set x | x in r.callers
    ensures forall x :: x in Entered(g, r) ==>
                          Entered(g, r)[x].caller == if x == r.name then r.callers else
                              if x in g then g[x].caller else []
    ensures forall x :: x in Entered(g, r) ==>
                          Entered(g, r)[x].filePath ==
                          if x == r.name then r.filePath else if x in g then g[x].filePath else None
    ensures forall x, y :: x in Entered(g, r) ==>
                             (y in Entered(g, r)[x].callee <==>
                              (x in g && y in g[x].callee) || (y == r.name && x in r.callers))
  {
    var h := Created(g, r.name);
    var h1 := h[r.name := h[r.name].(filePath := r.filePath)];
    CreatedAllKeys(h1, r.callers);
    var h2 := CreatedAll(h1, r.callers);
    CalledByKeys(h2[r.name := h2[r.name].(caller := r.callers)], r.name, r.callers);
  }

  lemma {:induction false} LoadedClosed(g: Nodes, records: seq<Record>)
    requires Closed(g)
    ensures Closed(Loaded(g, records))
  {
    if records != [] {
      LoadedClosed(g, records[..|records| - 1]);
      EnteredShape(Loaded(g, records[..|records| - 1]), records[|records| - 1]);
    }
  }

  /** The callers of the last record for the name. */
  ghost function LastCallers(records: seq<Record>, name: string): seq<string> {
    if records == [] then []
    else if records[|records| - 1].name == name then records[|records| - 1].callers
    else LastCallers(records[..|records| - 1], name)
  }

  ghost predicate Recorded(records: seq<Record>, name: string, caller: string) {
    exists i :: 0 <= i < |records| && records[i].name == name && caller in records[i].callers
  }

  /** x is listed among the callers of y, and y among the callees of x. */
  ghost predicate ListsCaller(g: Nodes, x: string, y: string) {
    y in g && x in g[y].caller
  }

  ghost predicate ListsCallee(g: Nodes, x: string, y: string) {
    x in g && y in g[x].callee
  }

  /** A freshly loaded graph keeps, as callers, those of the last record of each function, and as callees
      those of all records. */
  lemma {:induction false} LoadedEdges(records: seq<Record>, x: string, y: string)
    ensures ListsCaller(Loaded(map[], records), x, y) <==> x in LastCallers(records, y)
    ensures ListsCallee(Loaded(map[], records), x, y) <==> Recorded(records, y, x)
  {
    hide Entered;
    if records != [] {
      var front, r := records[..|records| - 1], records[|records| - 1];
      LoadedEdges(front, x, y);
      EnteredShape(Loaded(map[], front), r);
      RecordedAppend(front, r, y, x);
      assert records == front + [r];
    }
  }

  /** The file of the last record for the name. */
  ghost function LastFile(records: seq<Record>, name: string): Option<string> {
    if records == [] then None
    else if records[|records| - 1].name == name then records[|records| - 1].filePath
    else LastFile(records[..|records| - 1], name)
  }

  /** The nodes of a freshly loaded graph are the functions named in any record, each with the file of its
      own last record. */
  lemma {:induction false} LoadedNodes(records: seq<Record>, x: string)
    ensures var g := Loaded(map[], records);
            && (x in g <==> exists i :: 0 <= i < |records| && (records[i].name == x || x in records[i].callers))
            && (x in g ==> g[x].filePath == LastFile(records, x))
  {
    hide Entered;
    if records != [] {
      var front, r := records[..|records| - 1], records[|records| - 1];
      LoadedNodes(front, x);
      EnteredShape(Loaded(map[], front), r);
      assert records == front + [r];
      NamedAppend(front, r, x);
      if x !in Loaded(map[], front) { NoFile(front, x); }
    }
  }

  lemma NamedAppend(front: seq<Record>, r: Record, x: string)
    ensures var all := front + [r];
            (exists i :: 0 <= i < |all| && (all[i].name == x || x in all[i].callers)) <==>
            ((exists i :: 0 <= i < |front| && (front[i].name == x || x in front[i].callers)) ||
             r.name == x || x in r.callers)
  {
    var all := front + [r];
    assert all[|front|] == r && forall i :: 0 <= i < |front| ==> all[i] == front[i];
  }

  lemma {:induction false} NoFile(records: seq<Record>, x: string)
    requires forall i :: 0 <= i < |records| ==> records[i].name != x
    ensures LastFile(records, x) == None
  {
    if records != [] {
      NoFile(records[..|records| - 1], x);
    }
  }

  lemma RecordedAppend(front: seq<Record>, r: Record, y: string, x: string)
    ensures Recorded(front + [r], y, x) <==> Recorded(front, y, x) || (r.name == y && x in r.callers)
  {
    var all := front + [r];
    if Recorded(front, y, x) {
      var i :| 0 <= i < |front| && front[i].name == y && x in front[i].callers;
      assert all[i] == front[i];
    }
    assert all[|front|] == r;
  }

  /** The two adjacency lists mirror each other exactly when no function has an earlier record naming a
      caller that its last record leaves out. */
  lemma ListsMirror(records: seq<Record>)
    ensures var g := Loaded(map[], records);
            (forall x, y :: ListsCaller(g, x, y) <==> ListsCallee(g, x, y)) <==>
            (forall x, y :: Recorded(records, y, x) ==> x in LastCallers(records, y))
  {
    hide Loaded, ListsCaller, ListsCallee, Recorded, LastCallers;
    var g := Loaded(map[], records);
    forall x, y
      ensures ListsCaller(g, x, y) <==> x in LastCallers(records, y)
      ensures ListsCallee(g, x, y) <==> Recorded(records, y, x)
      ensures x in LastCallers(records, y) ==> Recorded(records, y, x)
    {
      LoadedEdges(records, x, y);
      if x in LastCallers(records, y) { LastRecorded(records, x, y); }
    }
  }

  /** Two records of one function with different callers: the first caller keeps a callee that no longer lists it. */
  lemma ListsDiverge(f: string, a: string, b: string)
    requires a != b
    ensures var g := Loaded(map[], [Record(f, None, [a]), Record(f, None, [b])]);
            ListsCallee(g, a, f) && !ListsCaller(g, a, f)
  {
    var records := [Record(f, None, [a]), Record(f, None, [b])];
    LoadedEdges(records, a, f);
    assert records[0].name == f && a in records[0].callers;
    assert LastCallers(records, f) == [b];
  }

  lemma {:induction false} LastRecorded(records: seq<Record>, x: string, y: string)
    requires x in LastCallers(records, y)
    ensures Recorded(records, y, x)
  {
    var last := |records| - 1;
    if records[last].name != y {
      LastRecorded(records[..last], x, y);
    }
  }
}
