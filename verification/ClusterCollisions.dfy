/** configEpoch collisions among masters: in every run of packet deliveries a master moves to a new
    epoch at most once for each master with a greater name, so resolution always stops. */
module ClusterCollisions {
  import opened ClusterTypes
  import opened Collections
  import opened ClusterBus
  import opened ClusterEpochs

  /** What node i has in its table for node j. */
  function Entry(s: System, i: Id, j: Id): nat {
    if i < |s.nodes| && j < |s.nodes[i].config| then s.nodes[i].config[j] else 0
  }

  /** The configEpoch a node claims for itself. */
  function Own(s: System, j: Id): nat {
    Entry(s, j, j)
  }

  /** Packets travel, and views change as long as all nodes stay known masters; no failover, no manual bump. */
  predicate CalmStep(st: Step) {
    || st.SendPing? || st.SendUpdate? || st.Deliver? || st.Lose?
    || (&& st.Observe? && st.forgotten == {}
        && forall j :: 0 <= j < |st.view.roles| ==> st.view.roles[j] == Master && j in st.view.known)
  }

  /** An UPDATE reports an epoch that the node it speaks about has reached. */
  ghost predicate Truthful(s: System, st: Step) {
    st.SendUpdate? ==> Entry(s, st.i, st.about) <= Own(s, st.about)
  }

  ghost predicate NodeMasters(n: Node) {
    forall j :: 0 <= j < |n.config| ==> j < |n.view.roles| && n.view.roles[j] == Master && j in n.view.known
  }

  ghost predicate AllMasters(s: System) {
    forall i :: 0 <= i < |s.nodes| ==> NodeMasters(s.nodes[i])
  }

  /** No packet is ahead of the node it speaks about. */
  ghost predicate PacketOk(s: System, m: Msg) {
    && (m.kind.Ping? || m.kind.Update?) && m.slaveof.None? && m.configEpoch <= Own(s, m.src)
    && (m.kind.Update? ==> m.kind.epoch <= Own(s, m.kind.about))
  }

  ghost predicate Calm(s: System) {
    WellFormed(s) && Bounded(s) && AllMasters(s) && forall m :: m in s.net ==> PacketOk(s, m)
  }

  ghost predicate CalmAt(states: seq<System>, steps: seq<Step>, k: nat) {
    k < |steps| && k < |states| && CalmStep(steps[k]) && Truthful(states[k], steps[k])
  }

  ghost predicate CalmRun(states: seq<System>, steps: seq<Step>) {
    Run(states, steps) && AllMasters(states[0]) && forall k :: 0 <= k < |steps| ==> CalmAt(states, steps, k)
  }

  /** When a node's own epoch moves, it has just heard its old epoch from a master with a greater
      name, and the new epoch is greater. */
  ghost predicate OwnStep(s: System, st: Step, t: System, i: Id) {
    || Own(t, i) == Own(s, i)
    || (&& Own(s, i) < Own(t, i) && st.Deliver? && st.m.kind == Ping && st.m in s.net && st.m.dst == i
        && i < st.m.src < |s.nodes| && st.m.configEpoch == Own(s, i))
  }

  // ----- one node -----

  lemma CalmReceive(n: Node, me: Id, m: Msg, tooSoon: bool)
    requires NodeOk(n, |n.config|) && me < |n.config| && MsgOk(m, |n.config|) && NodeBounded(n)
    requires m.kind.Ping? || m.kind.Update?
    requires m.kind.Update? && m.kind.about == me ==> m.kind.epoch <= n.config[me]
    requires m.src == me ==> m.configEpoch <= n.config[me]
    ensures var n' := Receive(n, me, m, tooSoon);
            && |n'.config| == |n.config|
            && (n'.config[me] == n.config[me] ||
                (n.config[me] < n'.config[me] && m.kind == Ping && me < m.src && m.configEpoch == n.config[me]))
            && (forall j :: 0 <= j < |n.config| && j != me ==>
                  || n'.config[j] == n.config[j] || (j == m.src && n'.config[j] == m.configEpoch)
                  || (m.kind.Update? && j == m.kind.about && n'.config[j] == m.kind.epoch))
  {
  }

  /** Of the calm steps, only a delivery can change a table. */
  lemma CalmAfter(n: Node, me: Id, st: Step)
    requires NodeOk(n, |n.config|) && me < |n.config| && CalmStep(st)
    requires st.Deliver? ==> MsgOk(st.m, |n.config|)
    ensures After(n, me, st) == if st.Deliver? then Receive(n, me, st.m, st.tooSoon)
                                else if st.Observe? then n.(view := st.view) else n
  {
    if st.Observe? {
      assert After(n, me, st).config == n.config;
    }
  }

  lemma CalmView(n: Node, me: Id, st: Step)
    requires NodeOk(n, |n.config|) && me < |n.config| && CalmStep(st) && NodeMasters(n)
    requires st.Deliver? ==> MsgOk(st.m, |n.config|) && st.m.slaveof.None?
    requires st.Observe? ==> ViewOk(st.view, |n.config|)
    ensures |After(n, me, st).config| == |n.config| && NodeMasters(After(n, me, st))
  {
    CalmAfter(n, me, st);
    hide After;
  }

  lemma CalmSent(n: Node, me: Id, st: Step, m: Msg)
    requires NodeOk(n, |n.config|) && me < |n.config| && NodeMasters(n) && CalmStep(st)
    requires st.SendUpdate? ==> st.about < |n.config|
    requires m in Sent(n, me, st, false)
    ensures (m.kind.Ping? || m.kind.Update?) && m.slaveof.None? && m.src == me && m.configEpoch == n.config[me]
    ensures m.kind.Update? ==> st.SendUpdate? && m.kind == Update(st.about, n.config[st.about])
  {
    assert n.view.roles[me] == Master;
  }

  // ----- one step -----

  lemma CalmDelivery(s: System, m: Msg, tooSoon: bool)
    requires Calm(s) && m in s.net
    ensures var n := s.nodes[m.dst];
            var n' := Receive(n, m.dst, m, tooSoon);
            && |n'.config| == |n.config|
            && (n'.config[m.dst] == n.config[m.dst] ||
                (&& n.config[m.dst] < n'.config[m.dst] && m.kind == Ping && m.dst < m.src
                 && m.configEpoch == n.config[m.dst]))
            && (forall j :: 0 <= j < |n.config| && j != m.dst ==>
                  n'.config[j] == n.config[j] || n'.config[j] <= Own(s, j))
  {
    assert PacketOk(s, m);
    CalmReceive(s.nodes[m.dst], m.dst, m, tooSoon);
  }

  lemma NoVote(s: System, st: Step)
    requires Calm(s) && Enabled(s, st) && CalmStep(st) && st.Deliver?
    ensures MsgOk(st.m, |s.nodes|) && st.m.slaveof.None? && !Voted(s.nodes[st.m.dst], st.m, st.tooSoon)
  {
    assert PacketOk(s, st.m);
  }

  /** What a calm step does to the nodes and to the bus. */
  lemma CalmApply(s: System, st: Step)
    requires Calm(s) && Enabled(s, st) && CalmStep(st)
    ensures var i := Actor(st);
            && i < |s.nodes| && NodeOk(s.nodes[i], |s.nodes|)
            && (st.Deliver? ==> MsgOk(st.m, |s.nodes|)) && (st.SendUpdate? ==> st.about < |s.nodes|)
            && NodeOk(After(s.nodes[i], i, st), |s.nodes|)
            && Apply(s, st).nodes == s.nodes[i := After(s.nodes[i], i, st)]
            && (forall m :: m in Apply(s, st).net ==> m in s.net || m in Sent(After(s.nodes[i], i, st), i, st, false))
  {
    StepOk(s, st);
    if st.Deliver? { NoVote(s, st); }
    AfterShape(s.nodes[Actor(st)], Actor(st), st);
    hide Receive, After, Sent, Voted, Enabled, AllMasters, Bounded;
  }

  lemma CalmOwn(s: System, st: Step, i: Id)
    requires Calm(s) && Enabled(s, st) && CalmStep(st) && i < |s.nodes|
    ensures OwnStep(s, st, Apply(s, st), i)
  {
    hide Receive, After, Sent, Apply, AllMasters, Bounded, PacketOk;
    CalmApply(s, st);
    CalmAfter(s.nodes[Actor(st)], Actor(st), st);
    if st.Deliver? && i == st.m.dst {
      CalmDelivery(s, st.m, st.tooSoon);
    }
  }

  lemma CalmRoles(s: System, st: Step)
    requires Calm(s) && Enabled(s, st) && CalmStep(st)
    ensures AllMasters(Apply(s, st))
  {
    hide Receive, After, Sent, Apply, Bounded, NodeMasters, CalmStep, PacketOk;
    CalmApply(s, st);
    StepOk(s, st);
    if st.Deliver? { NoVote(s, st); }
    CalmView(s.nodes[Actor(st)], Actor(st), st);
  }

  /** A packet on the bus was there before, or carries its sender's present epoch. */
  lemma CalmPackets(s: System, st: Step, m: Msg)
    requires Calm(s) && Enabled(s, st) && CalmStep(st) && Truthful(s, st) && m in Apply(s, st).net
    ensures PacketOk(Apply(s, st), m)
    ensures m in s.net || m.configEpoch == Own(Apply(s, st), m.src)
  {
    hide Receive, After, Sent, Apply, AllMasters, Bounded, CalmStep;
    CalmApply(s, st);
    if m in s.net {
      OldPacket(s, st, m);
    } else {
      NewPacketOk(s, st, m);
    }
  }

  lemma OldPacket(s: System, st: Step, m: Msg)
    requires Calm(s) && Enabled(s, st) && CalmStep(st) && m in s.net
    ensures PacketOk(Apply(s, st), m)
  {
    assert PacketOk(s, m) && MsgOk(m, |s.nodes|);
    hide Receive, After, Sent, Apply, Calm, CalmStep;
    CalmOwn(s, st, m.src);
    if m.kind.Update? { CalmOwn(s, st, m.kind.about); }
  }

  lemma NewPacketOk(s: System, st: Step, m: Msg)
    requires Calm(s) && Enabled(s, st) && CalmStep(st) && Truthful(s, st)
    requires Actor(st) < |s.nodes| && NodeOk(s.nodes[Actor(st)], |s.nodes|)
    requires (st.Deliver? ==> MsgOk(st.m, |s.nodes|)) && (st.SendUpdate? ==> st.about < |s.nodes|)
    requires NodeOk(After(s.nodes[Actor(st)], Actor(st), st), |s.nodes|)
    requires m in Sent(After(s.nodes[Actor(st)], Actor(st), st), Actor(st), st, false)
    ensures PacketOk(Apply(s, st), m) && m.configEpoch == Own(Apply(s, st), m.src)
  {
    hide Receive, After, Sent, Apply, Bounded, NodeMasters, PacketOk;
    var i := Actor(st);
    CalmApply(s, st);
    CalmAfter(s.nodes[i], i, st);
    if st.Deliver? { NoVote(s, st); }
    StepOk(s, st);
    CalmView(s.nodes[i], i, st);
    CalmSent(After(s.nodes[i], i, st), i, st, m);
    SentPacketOk(Apply(s, st), m);
  }

  lemma SentPacketOk(t: System, m: Msg)
    requires (m.kind.Ping? || m.kind.Update?) && m.slaveof.None? && m.configEpoch <= Own(t, m.src)
    requires m.kind.Update? ==> m.kind.epoch <= Own(t, m.kind.about)
    ensures PacketOk(t, m)
  {
  }

  lemma CalmKept(s: System, st: Step)
    requires Calm(s) && Enabled(s, st) && CalmStep(st) && Truthful(s, st)
    ensures Calm(Apply(s, st))
  {
    var t := Apply(s, st);
    ApplyShape(s, st);
    ApplyBounded(s, st);
    CalmRoles(s, st);
    hide Apply, Enabled, CalmStep, PacketOk, AllMasters, Bounded;
    forall m | m in t.net ensures PacketOk(t, m) {
      CalmPackets(s, st, m);
    }
  }

  // ----- runs -----

  lemma CalmStart(states: seq<System>, steps: seq<Step>)
    requires CalmRun(states, steps)
    ensures |states| == |steps| + 1 && states[0].net == multiset{} && Calm(states[0])
  {
    EpochsBounded(states, steps);
  }

  lemma {:induction false} AlwaysCalm(states: seq<System>, steps: seq<Step>, k: nat)
    requires CalmRun(states, steps) && k <= |steps|
    ensures |states| == |steps| + 1 && Calm(states[k]) && |states[k].nodes| == |states[0].nodes|
  {
    hide CalmRun, Apply, Enabled, CalmStep, Truthful, Calm;
    CalmStart(states, steps);
    if k != 0 {
      AlwaysCalm(states, steps, k - 1);
      CalmSteps(states, steps, k - 1);
      ApplyShape(states[k - 1], steps[k - 1]);
      CalmKept(states[k - 1], steps[k - 1]);
    }
  }

  /** What a calm run gives for one step. */
  lemma CalmSteps(states: seq<System>, steps: seq<Step>, k: nat)
    requires CalmRun(states, steps) && k < |steps|
    ensures |states| == |steps| + 1 && WellFormed(states[k]) && Enabled(states[k], steps[k])
    ensures states[k + 1] == Apply(states[k], steps[k]) && CalmStep(steps[k]) && Truthful(states[k], steps[k])
  {
    assert CalmAt(states, steps, k);
  }

  /** The epochs node j has claimed for itself up to state k. */
  function Claimed(states: seq<System>, k: nat, j: Id): set<nat>
    requires k < |states|
  {
    if k == 0 then {Own(states[0], j)} else Claimed(states, k - 1, j) + {Own(states[k], j)}
  }

  /** The epochs claimed up to state k by the nodes from i on. */
  function ClaimedFrom(states: seq<System>, k: nat, i: Id, n: nat): set<nat>
    requires k < |states| && i <= n
    decreases n - i
  {
    if i == n then {} else Claimed(states, k, i) + ClaimedFrom(states, k, i + 1, n)
  }

  /** How often node j has moved to another epoch up to state k. */
  function Moves(states: seq<System>, k: nat, j: Id): nat
    requires k < |states|
  {
    if k == 0 then 0 else Moves(states, k - 1, j) + if Own(states[k], j) == Own(states[k - 1], j) then 0 else 1
  }

  lemma MoveStep(states: seq<System>, steps: seq<Step>, k: nat, i: Id)
    requires CalmRun(states, steps) && 0 < k <= |steps| && i < |states[0].nodes|
    ensures Calm(states[k - 1]) && OwnStep(states[k - 1], steps[k - 1], states[k], i)
  {
    hide Calm, Apply, Enabled, CalmStep, OwnStep, Truthful, AllMasters, CalmAt;
    AlwaysCalm(states, steps, k - 1);
    CalmSteps(states, steps, k - 1);
    CalmOwn(states[k - 1], steps[k - 1], i);
  }

  lemma OwnGrows(states: seq<System>, steps: seq<Step>, k: nat, i: Id)
    requires CalmRun(states, steps) && 0 < k <= |steps| && i < |states[0].nodes|
    ensures Own(states[k - 1], i) <= Own(states[k], i)
  {
    MoveStep(states, steps, k, i);
  }

  ghost predicate UpAt(states: seq<System>, i: Id, q: nat) {
    0 < q < |states| ==> Own(states[q - 1], i) <= Own(states[q], i)
  }

  ghost predicate Growing(states: seq<System>, i: Id) {
    forall q: nat {:trigger UpAt(states, i, q)} :: UpAt(states, i, q)
  }

  ghost predicate LayerAt(states: seq<System>, k: nat, j: Id, n: nat)
    requires k < |states|
  {
    j < n ==> Claimed(states, k, j) <= ClaimedFrom(states, k, j + 1, n) + {Own(states[k], j)}
  }

  ghost predicate Layered(states: seq<System>, k: nat, n: nat)
    requires k < |states|
  {
    forall j: nat {:trigger LayerAt(states, k, j, n)} :: LayerAt(states, k, j, n)
  }

  /** When own epochs only grow, every move claims an epoch never claimed before. */
  lemma {:induction false} MovesAreNew(states: seq<System>, k: nat, i: Id)
    requires k < |states| && Growing(states, i)
    ensures Own(states[k], i) in Claimed(states, k, i)
    ensures forall e :: e in Claimed(states, k, i) ==> e <= Own(states[k], i)
    ensures |Claimed(states, k, i)| == Moves(states, k, i) + 1
  {
    if k != 0 {
      MovesAreNew(states, k - 1, i);
      assert UpAt(states, i, k);
      if Own(states[k], i) == Own(states[k - 1], i) {
        assert Claimed(states, k, i) == Claimed(states, k - 1, i);
      }
    }
  }

  /** A ping always carries an epoch its sender has claimed. */
  lemma {:induction false} PingsAreClaims(states: seq<System>, steps: seq<Step>, k: nat, m: Msg)
    requires CalmRun(states, steps) && k <= |steps| && m in states[k].net
    ensures m.configEpoch in Claimed(states, k, m.src)
  {
    RunShape(states, steps, k);
    hide CalmRun;
    if k != 0 {
      NewPacket(states, steps, k, m);
      if m in states[k - 1].net { PingsAreClaims(states, steps, k - 1, m); }
    }
  }

  lemma RunShape(states: seq<System>, steps: seq<Step>, k: nat)
    requires CalmRun(states, steps) && k <= |steps|
    ensures |states| == |steps| + 1 && states[0].net == multiset{}
  {
  }

  lemma NewPacket(states: seq<System>, steps: seq<Step>, k: nat, m: Msg)
    requires CalmRun(states, steps) && 0 < k <= |steps| && m in states[k].net
    ensures m in states[k - 1].net || m.configEpoch == Own(states[k], m.src)
  {
    hide Calm, Apply, Enabled, Own, CalmStep, Truthful, AllMasters, PacketOk, CalmAt;
    AlwaysCalm(states, steps, k - 1);
    CalmSteps(states, steps, k - 1);
    CalmPackets(states[k - 1], steps[k - 1], m);
  }

  lemma {:induction false} ClaimedFromHas(states: seq<System>, k: nat, i: Id, n: nat, j: Id, e: nat)
    requires k < |states| && i <= j < n && e in Claimed(states, k, j)
    ensures e in ClaimedFrom(states, k, i, n)
    decreases n - i
  {
    if i != j { ClaimedFromHas(states, k, i + 1, n, j, e); }
  }

  lemma {:induction false} ClaimedFromGrows(states: seq<System>, k: nat, i: Id, n: nat)
    requires 0 < k < |states| && i <= n
    ensures ClaimedFrom(states, k - 1, i, n) <= ClaimedFrom(states, k, i, n)
    decreases n - i
  {
    if i != n { ClaimedFromGrows(states, k, i + 1, n); }
  }

  lemma LeftStep(states: seq<System>, k: nat, i: Id, n: nat)
    requires 0 < k < |states| && i < n
    requires Claimed(states, k - 1, i) <= ClaimedFrom(states, k - 1, i + 1, n) + {Own(states[k - 1], i)}
    requires Own(states[k], i) == Own(states[k - 1], i) || Own(states[k - 1], i) in ClaimedFrom(states, k, i + 1, n)
    ensures Claimed(states, k, i) <= ClaimedFrom(states, k, i + 1, n) + {Own(states[k], i)}
  {
    hide Own, ClaimedFrom;
    ClaimedFromGrows(states, k, i + 1, n);
  }

  /** An epoch that a node leaves in step k was claimed by a node with a greater name. */
  lemma LeftNow(states: seq<System>, steps: seq<Step>, k: nat, i: Id)
    requires CalmRun(states, steps) && 0 < k <= |steps| && i < |states[0].nodes|
    ensures |states| == |steps| + 1
    ensures || Own(states[k], i) == Own(states[k - 1], i)
            || Own(states[k - 1], i) in ClaimedFrom(states, k, i + 1, |states[0].nodes|)
  {
    hide CalmRun, Calm, Own, ClaimedFrom;
    AlwaysCalm(states, steps, k - 1);
    MoveStep(states, steps, k, i);
    if Own(states[k], i) != Own(states[k - 1], i) {
      var m := steps[k - 1].m;
      PingsAreClaims(states, steps, k - 1, m);
      ClaimedFromHas(states, k, i + 1, |states[0].nodes|, m.src, m.configEpoch);
    }
  }

  /** Every epoch a node has left behind was claimed by a node with a greater name. */
  lemma {:induction false} LeftBehind(states: seq<System>, steps: seq<Step>, k: nat, i: Id)
    requires CalmRun(states, steps) && k <= |steps| && i < |states[0].nodes|
    ensures |states| == |steps| + 1
    ensures Claimed(states, k, i) <= ClaimedFrom(states, k, i + 1, |states[0].nodes|) + {Own(states[k], i)}
  {
    hide CalmRun, Own, ClaimedFrom;
    RunShape(states, steps, |steps|);
    if k != 0 {
      LeftBehind(states, steps, k - 1, i);
      LeftNow(states, steps, k, i);
      LeftStep(states, k, i, |states[0].nodes|);
    }
  }

  lemma {:induction false} FewClaims(states: seq<System>, k: nat, i: Id, n: nat)
    requires k < |states| && i <= n
    requires Layered(states, k, n)
    ensures |ClaimedFrom(states, k, i, n)| <= n - i
    decreases n - i
  {
    if i != n {
      FewClaims(states, k, i + 1, n);
      assert LayerAt(states, k, i, n);
      SubsetSize(ClaimedFrom(states, k, i, n), ClaimedFrom(states, k, i + 1, n) + {Own(states[k], i)});
    }
  }

  lemma MovesCount(states: seq<System>, k: nat, i: Id, n: nat)
    requires k < |states| && i < n && Growing(states, i) && Layered(states, k, n)
    ensures Moves(states, k, i) <= n - 1 - i
  {
    MovesAreNew(states, k, i);
    FewClaims(states, k, i + 1, n);
    assert LayerAt(states, k, i, n);
    SubsetSize(Claimed(states, k, i), ClaimedFrom(states, k, i + 1, n) + {Own(states[k], i)});
  }

  lemma CalmGrowing(states: seq<System>, steps: seq<Step>, i: Id)
    requires CalmRun(states, steps) && i < |states[0].nodes|
    ensures Growing(states, i)
  {
    forall q: nat ensures UpAt(states, i, q) {
      if 0 < q < |states| { OwnGrows(states, steps, q, i); }
    }
  }

  lemma CalmLayered(states: seq<System>, steps: seq<Step>, k: nat)
    requires CalmRun(states, steps) && k <= |steps|
    ensures Layered(states, k, |states[0].nodes|)
  {
    forall j: nat ensures LayerAt(states, k, j, |states[0].nodes|) {
      if j < |states[0].nodes| { LeftBehind(states, steps, k, j); }
    }
  }

  /** In any run of packet deliveries among masters, however stale the packets, a master with g
      masters of greater name moves its configEpoch at most g times. */
  lemma MovesBounded(states: seq<System>, steps: seq<Step>, i: Id)
    requires CalmRun(states, steps) && i < |states[0].nodes|
    ensures Moves(states, |steps|, i) <= |states[0].nodes| - 1 - i
  {
    CalmGrowing(states, steps, i);
    CalmLayered(states, steps, |steps|);
    MovesCount(states, |steps|, i, |states[0].nodes|);
  }

  function TotalMoves(states: seq<System>, k: nat, i: Id, n: nat): nat
    requires k < |states| && i <= n
    decreases n - i
  {
    if i == n then 0 else Moves(states, k, i) + TotalMoves(states, k, i + 1, n)
  }

  /** How many pairs n masters form. */
  function Pairs(n: nat): nat {
    if n == 0 then 0 else Pairs(n - 1) + n - 1
  }

  lemma {:induction false} PairsTwice(n: nat)
    ensures 2 * Pairs(n) == n * (n - 1)
  {
    if n != 0 { PairsTwice(n - 1); }
  }

  lemma {:induction false} TotalBounded(states: seq<System>, k: nat, i: Id, n: nat)
    requires k < |states| && i <= n
    requires forall j: Id {:trigger Moves(states, k, j)} :: j < n ==> Moves(states, k, j) <= n - 1 - j
    ensures TotalMoves(states, k, i, n) <= Pairs(n - i)
    decreases n - i
  {
    hide Moves;
    if i != n {
      TotalBounded(states, k, i + 1, n);
    }
  }

  /** Resolution always stops: n masters move at most n(n-1)/2 times in all. */
  lemma ResolutionStops(states: seq<System>, steps: seq<Step>)
    requires CalmRun(states, steps)
    ensures var n := |states[0].nodes|; 2 * TotalMoves(states, |steps|, 0, n) <= n * (n - 1)
  {
    hide CalmRun, Moves, TotalMoves, Pairs;
    RunShape(states, steps, |steps|);
    var n := |states[0].nodes|;
    forall j: Id | j < n ensures Moves(states, |steps|, j) <= n - 1 - j {
      MovesBounded(states, steps, j);
    }
    TotalBounded(states, |steps|, 0, n);
    PairsTwice(n);
  }

  /** Delivering node j's present header to node i would move node i. */
  ghost predicate WouldMove(s: System, i: Id, j: Id)
    requires WellFormed(s) && i < |s.nodes| && j < |s.nodes|
  {
    Receive(s.nodes[i], i, Header(s.nodes[j], j, i, Ping, false), false).config[i] != s.nodes[i].config[i]
  }

  /** Once every master has heard every other's present epoch, no delivery of a present header moves
      anyone exactly when all configEpochs differ. */
  lemma SettledMeansDistinct(s: System)
    requires Calm(s)
    requires forall i, j :: 0 <= i < |s.nodes| && 0 <= j < |s.nodes| ==> s.nodes[i].config[j] == Own(s, j)
    ensures (forall i, j :: 0 <= i < |s.nodes| && 0 <= j < |s.nodes| ==> !WouldMove(s, i, j)) <==>
            (forall i, j :: 0 <= i < j < |s.nodes| ==> Own(s, i) != Own(s, j))
  {
    forall i, j | 0 <= i < |s.nodes| && 0 <= j < |s.nodes| ensures WouldMove(s, i, j)
         <==> i < j && Own(s, i) == Own(s, j) {
      SettledPair(s, i, j);
    }
  }

  lemma SettledPair(s: System, i: Id, j: Id)
    requires Calm(s) && i < |s.nodes| && j < |s.nodes| && s.nodes[i].config[j] == Own(s, j)
    ensures WouldMove(s, i, j) <==> i < j && Own(s, i) == Own(s, j)
  {
    var m := Header(s.nodes[j], j, i, Ping, false);
    assert m.configEpoch == Own(s, j) && m.slaveof.None?;
    assert Hear(s.nodes[i], m).config == s.nodes[i].config;
  }
}
