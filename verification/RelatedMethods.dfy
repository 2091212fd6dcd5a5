/** From a test to the kernel functions it can exercise, through three call graphs. */
module RelatedMethods {

  import opened Collections
  import opened CallGraph

  /** The top functions of a test: main for a self test, else what nothing calls in the test's file. */
  ghost predicate TopOf(g: Nodes, selfTest: bool, file: string, x: string) {
    if selfTest then x == "main" else Uncalled(g, file, x)
  }

  ghost predicate Leaf(g: Nodes, x: string) {
    x in g && g[x].caller == []
  }

  /** The leaf of the test graph is reachable from a top function. */
  ghost predicate Grounds(g: Nodes, selfTest: bool, file: string, leaf: string) {
    exists top :: TopOf(g, selfTest, file, top) && Reach(g, top, leaf) && Leaf(g, leaf)
  }

  /** The test can make the system call s. */
  ghost predicate Uses(test: Nodes, glibc: Nodes, selfTest: bool, file: string, syscalls: set<string>, s: string) {
    exists leaf :: Grounds(test, selfTest, file, leaf) && s in syscalls && Reach(glibc, leaf, s)
  }

  /** The kernel function m is reachable from the handler of a system call the test can make. */
  ghost predicate Related(test: Nodes, glibc: Nodes, kernel: Nodes, table: map<string, string>, selfTest: bool,
                          file: string, syscalls: set<string>, m: string) {
    exists s :: Uses(test, glibc, selfTest, file, syscalls, s) && s in table && Reach(kernel, table[s], m)
  }

  /** The union of the leaves below each top function; fails if one of them is not in the graph. */
  method GroundFuncs(test: CallGraph, tops: set<string>) returns (r: Option<set<string>>)
    requires test.Valid()
    ensures r.None? <==> !(tops <= test.nodeMap.Keys)
    ensures r.Some? ==> forall x :: x in r.value <==>
                                    exists top :: top in tops && Reach(test.nodeMap, top, x) && Leaf(test.nodeMap, x)
  {
    var left, ground: set<string> := tops, {};
    while left != {}
      invariant left <= tops && tops - left <= test.nodeMap.Keys
      invariant forall x :: x in ground <==>
                            exists top :: top in tops - left && Reach(test.nodeMap, top, x) && Leaf(test.nodeMap, x)
      decreases left
    {
      var top :| top in left;
      left := left - {top};
      var g := test.GetGroundFunc(top);
      if g.None? {
        return None;
      }
      ground := ground + g.value;
    }
    r := Some(ground);
  }

  method Syscalls(glibc: CallGraph, syscalls: set<string>, ground: set<string>) returns (r: set<string>)
    requires glibc.Valid()
    ensures forall s :: s in r <==> exists f :: f in ground && s in syscalls && Reach(glibc.nodeMap, f, s)
  {
    var left := ground;
    r := {};
    while left != {}
      invariant left <= ground
      invariant forall s :: s in r <==> exists f :: f in ground - left && s in syscalls && Reach(glibc.nodeMap, f, s)
      decreases left
    {
      var f :| f in left;
      left := left - {f};
      var c := glibc.GetSyscall(syscalls, f);
      r := r + c;
    }
  }

  /** get_userd_syscall for a compiled test. A test without a graph uses no system call; a self test
      without a main function is an error. */
  method GetUsedSyscalls(test: Option<CallGraph>, glibc: CallGraph, selfTest: bool, file: string, syscalls: set<string>)
    returns (r: Option<set<string>>)
    requires glibc.Valid() && (test.Some? ==> test.value.Valid())
    ensures r.None? <==> test.Some? && selfTest && "main" !in test.value.nodeMap
    ensures r.Some? && test.None? ==> r.value == {}
    ensures r.Some? && test.Some? ==>
              forall s :: s in r.value <==> Uses(test.value.nodeMap, glibc.nodeMap, selfTest, file, syscalls, s)
  {
    if test.None? {
      return Some({});
    }
    var tops := {"main"};
    if !selfTest {
      tops := test.value.GetTopFunc(file);
    }
    assert forall x :: x in tops <==> TopOf(test.value.nodeMap, selfTest, file, x);
    var ground := GroundFuncs(test.value, tops);
    if ground.None? {
      return None;
    }
    assert forall x :: x in ground.value <==> Grounds(test.value.nodeMap, selfTest, file, x);
    var used := Syscalls(glibc, syscalls, ground.value);
    r := Some(used);
  }

  /** The kernel functions behind the handlers of the used system calls. */
  method Handlers(kernel: CallGraph, table: map<string, string>, used: set<string>) returns (r: set<string>)
    requires kernel.Valid()
    ensures forall m :: m in r <==> exists s :: s in used && s in table && Reach(kernel.nodeMap, table[s], m)
  {
    var left := used;
    r := {};
    while left != {}
      invariant left <= used
      invariant forall m :: m in r <==>
                            exists s :: s in used - left && s in table && Reach(kernel.nodeMap, table[s], m)
      decreases left
    {
      var s :| s in left;
      left := left - {s};
      var c := kernel.GetAllCall(if s in table then Some(table[s]) else None);
      r := r + c;
    }
  }

  /** get_related_methods: the three searches composed. */
  method GetRelatedMethods(test: Option<CallGraph>, glibc: CallGraph, kernel: CallGraph, table: map<string, string>,
                           selfTest: bool, file: string, syscalls: set<string>)
    returns (r: Option<set<string>>)
    requires glibc.Valid() && kernel.Valid() && (test.Some? ==> test.value.Valid())
    ensures r.None? <==> test.Some? && selfTest && "main" !in test.value.nodeMap
    ensures r.Some? && test.None? ==> r.value == {}
    ensures r.Some? && test.Some? ==>
              forall m :: m in r.value <==>
                          Related(test.value.nodeMap, glibc.nodeMap, kernel.nodeMap, table, selfTest, file, syscalls, m)
  {
    var used := GetUsedSyscalls(test, glibc, selfTest, file, syscalls);
    if used.None? {
      return None;
    }
    var methods := Handlers(kernel, table, used.value);
    r := Some(methods);
  }
}
