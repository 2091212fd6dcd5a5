/** The cluster bus as a state machine: every node keeps epochs, an election attempt and its own
    view of the cluster; messages travel in any order and with any delay.

    Nodes are numbered in the order of their names, so the comparison of two node names is the
    comparison of their numbers. What a node believes about roles, slots, failures, known peers
    and the cluster size changes by Observe steps, which may install any view at all; timer
    guards become a free choice of the step to take. */
module ClusterBus {

  import opened ClusterTypes
  import opened Collections

  datatype View = View(roles: seq<Role>, slots: seq<Option<Id>>, failed: set<Id>, known: set<Id>, size: nat)

  datatype Node = Node(
    currentEpoch: nat,
    lastVoteEpoch: nat,
    config: seq<nat>,     // configEpoch of every node as known here, this node included
    authEpoch: nat,       // failover_auth_epoch
    authCount: nat,       // failover_auth_count
    authSent: bool,       // failover_auth_sent
    view: View)

  datatype Kind = Ping | AuthRequest | AuthAck | Update(about: Id, epoch: nat)

  datatype Msg = Msg(kind: Kind, src: Id, dst: Id, currentEpoch: nat, configEpoch: nat,
                     slaveof: Option<Id>, claimed: set<nat>, force: bool)

  datatype Vote = Vote(voter: Id, epoch: nat, candidate: Id)
  datatype Win = Win(epoch: nat, winner: Id, count: nat, backers: set<Id>, stale: nat)

  /** granted, backers, stale and wins record history: the votes granted so far, whose votes each node
      counted since it asked for them, how many votes it counted before asking, since it last reset its
      count, and the quorum checks passed so far. No step reads them. */
  datatype System = System(nodes: seq<Node>, net: multiset<Msg>,
                           granted: set<Vote>, backers: seq<set<Id>>, stale: seq<nat>, wins: set<Win>)

  datatype Step =
    | SendPing(i: Id, dst: Id)
    | SendUpdate(i: Id, dst: Id, about: Id)
    | Schedule(i: Id, manual: bool)                 // a new attempt is scheduled, the count reset
    | RequestVotes(i: Id, manual: bool)             // a new epoch, and the request to every node
    | CheckQuorum(i: Id, manual: bool)
    | Bump(i: Id)
    | SetConfigEpoch(i: Id, epoch: nat)
    | Observe(i: Id, view: View, forgotten: set<Id>)
    | Deliver(m: Msg, tooSoon: bool)
    | Lose(m: Msg)

  function Max(a: nat, b: nat): nat {
    if a < b then b else a
  }

  function SlotsOf(v: View, id: Id): set<nat> {
    set j | 0 <= j < |v.slots| && v.slots[j] == Some(id)
  }

  // ----- shapes -----

  ghost predicate ViewOk(v: View, size: nat) {
    && |v.roles| == size
    && (forall r :: r in v.roles && r.Slave? && r.of.Some? ==> r.of.value < size)
    && (forall o :: o in v.slots && o.Some? ==> o.value < size)
    && (forall k :: k in v.known ==> k < size)
  }

  ghost predicate NodeOk(n: Node, size: nat) {
    |n.config| == size && ViewOk(n.view, size)
  }

  ghost predicate MsgOk(m: Msg, size: nat) {
    m.src < size && m.dst < size && (m.kind.Update? ==> m.kind.about < size) && (m.slaveof.Some? ==>
        m.slaveof.value < size)
  }

  ghost predicate WellFormed(s: System) {
    && |s.backers| == |s.stale| == |s.nodes|
    && (forall i :: 0 <= i < |s.nodes| ==> NodeOk(s.nodes[i], |s.nodes|))
    && (forall m :: m in s.net ==> MsgOk(m, |s.nodes|))
    && (forall v :: v in s.granted ==> v.voter < |s.nodes|)
  }

  // ----- what one node does -----

  /** The header of a packet: a slave speaks for its master's slots and configEpoch. */
  function Header(n: Node, me: Id, dst: Id, kind: Kind, force: bool): Msg
    requires NodeOk(n, |n.config|) && me < |n.config|
  {
    var role := n.view.roles[me];
    var master := if role.Slave? && role.of.Some? then role.of.value else me;
    assert role in n.view.roles;
    Msg(kind, me, dst, n.currentEpoch, n.config[master], if role.Slave? then role.of else
        None, SlotsOf(n.view, master), force)
  }

  /** Epochs in the header of any packet from a known sender. */
  function Hear(n: Node, m: Msg): Node
    requires m.src < |n.config|
  {
    n.(currentEpoch := Max(n.currentEpoch, m.currentEpoch),
       config := n.config[m.src := Max(n.config[m.src], m.configEpoch)])
  }

  /** The role the sender of a ping or pong claims for itself. */
  function Announce(n: Node, m: Msg): Node
    requires m.src < |n.view.roles|
  {
    var was := n.view.roles[m.src];
    var role := if m.slaveof.None? then Master
                else if m.slaveof.value in n.view.known then Slave(m.slaveof)
                else Slave(if was.Slave? then was.of else None);
    n.(view := n.view.(roles := n.view.roles[m.src := role]))
  }

  /** A colliding configEpoch moves the node with the smaller name to a new epoch. */
  function Collide(n: Node, me: Id, src: Id): Node
    requires me < |n.config| && src < |n.config|
  {
    if n.config[src] == n.config[me] && me < src
    then n.(currentEpoch := n.currentEpoch + 1, config := n.config[me := n.currentEpoch + 1])
    else n
  }

  predicate Grants(n: Node, me: Id, m: Msg, tooSoon: bool)
    requires NodeOk(n, |n.config|) && me < |n.config| && m.src < |n.config|
  {
    var role := n.view.roles[m.src];
    && n.view.roles[me].Master? && SlotsOf(n.view, me) != {}
    && n.currentEpoch <= m.currentEpoch
    && n.lastVoteEpoch != n.currentEpoch
    && role.Slave? && role.of.Some? && (role.of.value in n.view.failed || m.force)
    && !tooSoon
    && forall j :: 0 <= j < |n.view.slots| && j in m.claimed && n.view.slots[j].Some? ==>
                     (assert n.view.slots[j] in n.view.slots; n.config[n.view.slots[j].value] <= m.configEpoch)
  }

  predicate Counts(n: Node, m: Msg)
    requires m.src < |n.view.roles|
  {
    n.view.roles[m.src].Master? && SlotsOf(n.view, m.src) != {} && n.authEpoch <= m.currentEpoch
  }

  function Receive(n: Node, me: Id, m: Msg, tooSoon: bool): Node
    requires NodeOk(n, |n.config|) && me < |n.config| && MsgOk(m, |n.config|)
  {
    if m.src !in n.view.known then n
    else
      var h := Hear(n, m);
      match m.kind
      case Ping =>
        var a := Announce(h, m);
        if a.view.roles[me].Master? && a.view.roles[m.src].Master? && m.configEpoch == a.config[me]
        then Collide(a, me, m.src) else a
      case AuthRequest => if Grants(h, me, m, tooSoon) then h.(lastVoteEpoch := h.currentEpoch) else h
      case AuthAck => if Counts(h, m) then h.(authCount := h.authCount + 1) else h
      case Update(about, epoch) =>
        if about in h.view.known && h.config[about] < epoch then h.(config := h.config[about := epoch]) else h
  }

  /** A slave whose master serves slots and is failing, or whose failover is manual. */
  predicate CanFailOver(n: Node, me: Id, manual: bool)
    requires NodeOk(n, |n.config|) && me < |n.config|
  {
    var role := n.view.roles[me];
    role.Slave? && role.of.Some? && (role.of.value in n.view.failed || manual) && SlotsOf(n.view, role.of.value) != {}
  }

  /** The winner becomes a master, takes its master's slots and the epoch of the election. */
  function TakeOver(n: Node, me: Id): Node
    requires NodeOk(n, |n.config|) && me < |n.config|
  {
    var was := n.view.roles[me];
    n.(config := n.config[me := Max(n.config[me], n.authEpoch)],
       view := n.view.(roles := n.view.roles[me := Master],
                       slots := seq(|n.view.slots|, j requires 0 <= j < |n.view.slots| =>
                                      if was.Slave? && was.of.Some? && n.view.slots[j] == was.of then Some(me) else
                                          n.view.slots[j])))
  }

  /** clusterGetMaxEpoch over the first k table entries. */
  function MaxEpoch(n: Node, k: nat): nat
    requires k <= |n.config|
  {
    if k == 0 then n.currentEpoch else Max(MaxEpoch(n, k - 1), n.config[k - 1])
  }

  /** clusterBumpConfigEpochWithoutConsensus. */
  function BumpEpoch(n: Node, me: Id): Node
    requires me < |n.config|
  {
    if MayBump(n.config[me], MaxEpoch(n, |n.config|))
    then n.(currentEpoch := n.currentEpoch + 1, config := n.config[me := n.currentEpoch + 1])
    else n
  }

  // ----- steps of the whole system -----

  ghost predicate Enabled(s: System, st: Step)
    requires WellFormed(s)
  {
    var n := |s.nodes|;
    match st
    case SendPing(i, dst) => i < n && dst < n
    case SendUpdate(i, dst, about) => i < n && dst < n && about < n
    case Schedule(i, manual) => i < n && CanFailOver(s.nodes[i], i, manual)
    case RequestVotes(i, manual) => i < n && CanFailOver(s.nodes[i], i, manual) && !s.nodes[i].authSent
    case CheckQuorum(i, manual) =>
      && i < n && CanFailOver(s.nodes[i], i, manual) && s.nodes[i].authSent
      && s.nodes[i].view.size / 2 + 1 <= s.nodes[i].authCount
    case Bump(i) => i < n
    case SetConfigEpoch(i, epoch) => i < n && s.nodes[i].view.known <= {i} && s.nodes[i].config[i] == 0
    case Observe(i, view, forgotten) => i < n && ViewOk(view, n) && i !in forgotten
    case Deliver(m, tooSoon) => m in s.net
    case Lose(m) => m in s.net
  }

  predicate Voted(n: Node, m: Msg, tooSoon: bool)
    requires NodeOk(n, |n.config|) && MsgOk(m, |n.config|)
  {
    m.kind == AuthRequest && m.src in n.view.known && Grants(Hear(n, m), m.dst, m, tooSoon)
  }

  predicate Counted(n: Node, m: Msg)
    requires NodeOk(n, |n.config|) && MsgOk(m, |n.config|)
  {
    m.kind == AuthAck && m.src in n.view.known && Counts(Hear(n, m), m)
  }

  /** Every step is taken by one node. */
  function Actor(st: Step): Id {
    match st
    case SendPing(i, _) => i
    case SendUpdate(i, _, _) => i
    case Schedule(i, _) => i
    case RequestVotes(i, _) => i
    case CheckQuorum(i, _) => i
    case Bump(i) => i
    case SetConfigEpoch(i, _) => i
    case Observe(i, _, _) => i
    case Deliver(m, _) => m.dst
    case Lose(m) => m.dst
  }

  /** The acting node after a step. */
  function After(n: Node, me: Id, st: Step): Node
    requires NodeOk(n, |n.config|) && me < |n.config|
    requires st.Deliver? ==> MsgOk(st.m, |n.config|)
  {
    match st
    case Schedule(_, _) => n.(authCount := 0, authSent := false)
    case RequestVotes(_, _) => n.(currentEpoch := n.currentEpoch + 1, authEpoch := n.currentEpoch + 1, authSent := true)
    case CheckQuorum(_, _) => TakeOver(n, me)
    case Bump(_) => BumpEpoch(n, me)
    case SetConfigEpoch(_, epoch) => n.(config := n.config[me := epoch], currentEpoch := Max(n.currentEpoch, epoch))
    case Observe(_, view, forgotten) =>
      n.(view := view,
         config := seq(|n.config|, j requires 0 <= j < |n.config| => if j in forgotten then 0 else n.config[j]))
    case Deliver(m, tooSoon) => Receive(n, me, m, tooSoon)
    case _ => n
  }

  /** The packets the acting node sends; n is its state after the step. */
  function Sent(n: Node, me: Id, st: Step, voted: bool): set<Msg>
    requires NodeOk(n, |n.config|) && me < |n.config|
    requires st.SendUpdate? ==> st.about < |n.config|
  {
    match st
    case SendPing(_, dst) => {Header(n, me, dst, Ping, false)}
    case SendUpdate(_, dst, about) => {Header(n, me, dst, Update(about, n.config[about]), false)}
    case RequestVotes(_, manual) => set d | 0 <= d < |n.config| && d != me :: Header(n, me, d, AuthRequest, manual)
    case Deliver(m, _) => if voted then {Header(n, me, m.src, AuthAck, false)} else {}
    case _ => {}
  }

  function Taken(st: Step): multiset<Msg> {
    if st.Deliver? || st.Lose? then multiset{st.m} else multiset{}
  }

  function Apply(s: System, st: Step): System
    requires WellFormed(s) && Enabled(s, st)
  {
    var i := Actor(st);
    var n := s.nodes[i];
    AfterShape(n, i, st);
    var n' := After(n, i, st);
    var voted := st.Deliver? && Voted(n, st.m, st.tooSoon);
    System(
      s.nodes[i := n'],
      s.net - Taken(st) + multiset(Sent(n', i, st, voted)),
      if voted then s.granted + {Vote(i, n'.currentEpoch, st.m.src)} else s.granted,
      if st.Schedule? then s.backers[i := {}]
      else if st.Deliver? && Counted(n, st.m) && n.authSent then s.backers[i := s.backers[i] + {st.m.src}]
      else s.backers,
      if st.Schedule? then s.stale[i := 0]
      else if st.Deliver? && Counted(n, st.m) && !n.authSent then s.stale[i := s.stale[i] + 1]
      else s.stale,
      if st.CheckQuorum? then s.wins + {Win(n.authEpoch, i, n.authCount, s.backers[i], s.stale[i])} else s.wins)
  }

  lemma AfterShape(n: Node, me: Id, st: Step)
    requires NodeOk(n, |n.config|) && me < |n.config|
    requires st.Deliver? ==> MsgOk(st.m, |n.config|)
    requires st.Observe? ==> ViewOk(st.view, |n.config|)
    ensures NodeOk(After(n, me, st), |n.config|)
  {
  }

  /** No packet on the bus, no attempt under way; epochs as a node's start-up leaves them. */
  ghost predicate Init(s: System) {
    && WellFormed(s)
    && s.net == multiset{} && s.granted == {} && s.wins == {}
    && (forall i :: 0 <= i < |s.nodes| ==>
          var n := s.nodes[i];
          && n.authEpoch == 0 && n.authCount == 0 && !n.authSent && n.lastVoteEpoch <= n.currentEpoch
          && s.backers[i] == {} && s.stale[i] == 0
          && forall j :: 0 <= j < |n.config| ==> n.config[j] <= n.currentEpoch)
  }

  /** A run: states linked by steps. */
  ghost predicate Run(states: seq<System>, steps: seq<Step>) {
    && |states| == |steps| + 1
    && Init(states[0])
    && forall k :: 0 <= k < |steps| ==>
                     && WellFormed(states[k]) && Enabled(states[k], steps[k])
                     && states[k + 1] == Apply(states[k], steps[k])
  }

  lemma RunPrefix(states: seq<System>, steps: seq<Step>, n: nat)
    requires Run(states, steps) && n <= |steps|
    ensures Run(states[..n + 1], steps[..n])
  {
  }

  lemma RunStep(states: seq<System>, steps: seq<Step>, k: nat)
    requires Run(states, steps) && k < |steps|
    ensures |states| == |steps| + 1 && WellFormed(states[k]) && Enabled(states[k], steps[k])
    ensures states[k + 1] == Apply(states[k], steps[k])
  {
  }

  lemma SentShape(n: Node, me: Id, st: Step, voted: bool)
    requires NodeOk(n, |n.config|) && me < |n.config|
    requires st.SendPing? ==> st.dst < |n.config|
    requires st.SendUpdate? ==> st.about < |n.config| && st.dst < |n.config|
    requires st.Deliver? ==> st.m.src < |n.config|
    ensures forall m :: m in Sent(n, me, st, voted) ==> MsgOk(m, |n.config|)
  {
    assert n.view.roles[me] in n.view.roles;
  }

  /** What an enabled step may count on. */
  lemma StepOk(s: System, st: Step)
    requires WellFormed(s) && Enabled(s, st)
    ensures var i := Actor(st);
            && i < |s.nodes| && |s.nodes[i].config| == |s.nodes| && NodeOk(s.nodes[i], |s.nodes|)
            && (st.Deliver? ==> MsgOk(st.m, |s.nodes|) && st.m.src < |s.nodes| && st.m in s.net)
            && (st.Observe? ==> ViewOk(st.view, |s.nodes|))
            && (st.SendPing? ==> st.dst < |s.nodes|)
            && (st.SendUpdate? ==> st.about < |s.nodes| && st.dst < |s.nodes|)
  {
  }

  /** Every step keeps the shapes. */
  lemma ApplyShape(s: System, st: Step)
    requires WellFormed(s) && Enabled(s, st)
    ensures WellFormed(Apply(s, st)) && |Apply(s, st).nodes| == |s.nodes|
  {
    hide Receive, After, Sent, Enabled, ViewOk, Voted, Counted;
    StepOk(s, st);
    var i := Actor(st);
    AfterShape(s.nodes[i], i, st);
    SentShape(After(s.nodes[i], i, st), i, st, st.Deliver? && Voted(s.nodes[i], st.m, st.tooSoon));
  }
}
