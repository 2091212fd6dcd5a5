/** The rules of the bus, field by field: what each step of a run may change, when and to what, said in the
    fields of nodes and packets alone. */
module ClusterRules {

  import opened ClusterTypes
  import opened Collections
  import opened ClusterBus
  import opened ClusterEpochs
  import opened ClusterVotes

  /** Node i, being n, takes in the packet: it is delivered to it, from a sender it knows. */
  ghost predicate Takes(n: Node, i: Id, st: Step) {
    st.Deliver? && st.m.dst == i && st.m.src in n.view.known
  }

  ghost predicate Serves(v: View, id: Id) {
    exists j :: 0 <= j < |v.slots| && v.slots[j] == Some(id)
  }

  // ----- votes -----

  /** Every slot the request claims has no owner here, or one with an epoch no greater than the request's. */
  ghost predicate ClaimsUpToDate(n: Node, m: Msg) {
    forall j :: 0 <= j < |n.view.slots| && j in m.claimed && n.view.slots[j].Some? ==>
                  n.view.slots[j].value < |n.config| && n.config[n.view.slots[j].value] <= m.configEpoch
  }

  /** Voter v may grant the request: it is a master with slots and has reached neither the request's epoch as a
      voter nor passed it, the sender is a slave whose master failed or the failover is manual, and the claims are
      up to date. */
  ghost predicate Entitled(n: Node, v: Id, m: Msg) {
    && v < |n.view.roles| && n.view.roles[v] == Master && Serves(n.view, v)
    && n.lastVoteEpoch < m.currentEpoch && n.currentEpoch <= m.currentEpoch
    && m.src < |n.view.roles| && n.view.roles[m.src].Slave? && n.view.roles[m.src].of.Some?
    && (n.view.roles[m.src].of.value in n.view.failed || m.force)
    && ClaimsUpToDate(n, m)
  }

  ghost predicate IsGrant(n: Node, i: Id, st: Step) {
    Takes(n, i, st) && st.m.kind == AuthRequest && !st.tooSoon && Entitled(n, i, st.m)
  }

  /** A vote is granted exactly on taking in a request that entitles to it, for the request's epoch. */
  ghost predicate VoteRule(s: System, st: Step, t: System) {
    forall v: Id, e, c ::
      Vote(v, e, c) in t.granted && Vote(v, e, c) !in s.granted <==>
      v < |s.nodes| && IsGrant(s.nodes[v], v, st) && st.m.currentEpoch == e && st.m.src == c
  }

  lemma ServesSlots(v: View, id: Id)
    ensures Serves(v, id) <==> SlotsOf(v, id) != {}
  {
    if Serves(v, id) {
      var j :| 0 <= j < |v.slots| && v.slots[j] == Some(id);
      assert j in SlotsOf(v, id);
    }
    if SlotsOf(v, id) != {} {
      var j :| j in SlotsOf(v, id);
    }
  }

  lemma HeardClaims(n: Node, m: Msg)
    requires NodeOk(n, |n.config|) && MsgOk(m, |n.config|)
    ensures var h := Hear(n, m);
            ClaimsUpToDate(n, m) <==>
            forall j :: 0 <= j < |h.view.slots| && j in m.claimed && h.view.slots[j].Some? ==>
                          h.view.slots[j].value < |h.config| && h.config[h.view.slots[j].value] <= m.configEpoch
  {
    forall j | 0 <= j < |n.view.slots| && n.view.slots[j].Some? ensures n.view.slots[j].value < |n.config| {
      assert n.view.slots[j] in n.view.slots;
    }
  }

  lemma VotedExactly(n: Node, m: Msg, tooSoon: bool)
    requires NodeOk(n, |n.config|) && MsgOk(m, |n.config|) && NodeBounded(n)
    ensures Voted(n, m, tooSoon) <==> IsGrant(n, m.dst, Deliver(m, tooSoon))
  {
    ServesSlots(n.view, m.dst);
    HeardClaims(n, m);
  }

  lemma VotesAsRuled(s: System, st: Step)
    requires WellFormed(s) && Enabled(s, st) && Bounded(s) && VotesOnce(s)
    ensures VoteRule(s, st, Apply(s, st))
  {
    hide Entitled, ViewOk, Receive, Sent, Voted, Counted;
    StepOk(s, st);
    var i := Actor(st);
    if st.Deliver? {
      VotedExactly(s.nodes[i], st.m, st.tooSoon);
      if Voted(s.nodes[i], st.m, st.tooSoon) { GrantEpoch(s.nodes[i], st.m, st.tooSoon); }
    }
  }

  // ----- one node -----

  /** A vote is counted exactly when it is taken in from a master with slots and is not older than the attempt. */
  ghost predicate IsCount(n: Node, i: Id, st: Step) {
    && Takes(n, i, st) && st.m.kind == AuthAck && n.authEpoch <= st.m.currentEpoch
    && st.m.src < |n.view.roles| && n.view.roles[st.m.src] == Master && Serves(n.view, st.m.src)
  }

  /** A master hears its own epoch from a master of greater name that its table is not ahead of. */
  ghost predicate Collides(n: Node, i: Id, st: Step) {
    && Takes(n, i, st) && st.m.kind == Ping && st.m.slaveof.None? && i < st.m.src < |n.config|
    && i < |n.view.roles| && n.view.roles[i] == Master
    && n.config[st.m.src] <= st.m.configEpoch == n.config[i]
  }

  /** The node holds the greatest epoch it knows, and that is not zero. */
  ghost predicate AtTheTop(n: Node, i: Id) {
    && i < |n.config| && n.config[i] != 0 && n.currentEpoch <= n.config[i]
    && forall e :: e in n.config ==> e <= n.config[i]
  }

  /** The attempt: reset when scheduled, given an epoch when votes are asked for, and counting votes. */
  ghost predicate AttemptRule(n: Node, i: Id, st: Step, n': Node) {
    && n'.authSent == (if st.Schedule? && st.i == i then false else if st.RequestVotes? && st.i == i then true
                       else n.authSent)
    && n'.authEpoch == (if st.RequestVotes? && st.i == i then n.currentEpoch + 1 else n.authEpoch)
    && n'.authCount == (if st.Schedule? && st.i == i then 0 else if IsCount(n, i, st) then n.authCount + 1
                        else n.authCount)
    && n'.lastVoteEpoch == if IsGrant(n, i, st) then st.m.currentEpoch else n.lastVoteEpoch
  }

  /** currentEpoch grows to what is heard or set, and by one for each new epoch the node makes. */
  ghost predicate CurrentRule(n: Node, i: Id, st: Step, n': Node) {
    var heard := if Takes(n, i, st) then Max(n.currentEpoch, st.m.currentEpoch)
                 else if st.SetConfigEpoch? && st.i == i then Max(n.currentEpoch, st.epoch)
                 else n.currentEpoch;
    n'.currentEpoch == heard + if MakesEpoch(n, i, st) then 1 else 0
  }

  /** The node makes a new epoch: to ask for votes, or by a bump or a collision. */
  ghost predicate MakesEpoch(n: Node, i: Id, st: Step) {
    || (st.RequestVotes? && st.i == i) || (st.Bump? && st.i == i && !AtTheTop(n, i)) || Collides(n, i, st)
  }

  /** What the step says the epoch of node j is. */
  ghost predicate Says(n: Node, i: Id, st: Step, j: Id, e: nat) {
    || (Takes(n, i, st) && st.m.src == j && st.m.configEpoch == e)
    || (Takes(n, i, st) && st.m.kind == Update(j, e) && j in n.view.known)
    || (st.CheckQuorum? && st.i == i == j && n.authEpoch == e)
  }

  /** The entry for node j: the greatest of what it was and what is said, but the new epoch the node makes for
      itself, the one it is set to, or zero where it is forgotten. */
  ghost predicate EntryRule(n: Node, i: Id, st: Step, n': Node) {
    && |n'.config| == |n.config|
    && forall j: Id :: j < |n.config| ==>
         if j == i && !st.RequestVotes? && MakesEpoch(n, i, st) then n'.config[j] == n'.currentEpoch
         else if st.SetConfigEpoch? && st.i == i == j then n'.config[j] == st.epoch
         else if st.Observe? && st.i == i && j in st.forgotten then n'.config[j] == 0
         else
           && n.config[j] <= n'.config[j] && (forall e :: Says(n, i, st, j, e) ==> e <= n'.config[j])
           && (n'.config[j] == n.config[j] || Says(n, i, st, j, n'.config[j]))
  }

  /** Roles change as their holders announce, and a winner becomes a master. */
  ghost predicate RoleRule(n: Node, i: Id, st: Step, n': Node) {
    if st.Observe? && st.i == i then n'.view == st.view
    else
      && n'.view.failed == n.view.failed && n'.view.known == n.view.known && n'.view.size == n.view.size
      && |n'.view.roles| == |n.view.roles|
      && forall j: Id :: j < |n.view.roles| ==>
           n'.view.roles[j] ==
           if Takes(n, i, st) && st.m.kind == Ping && st.m.src == j then Announced(n, j, st.m.slaveof)
           else if st.CheckQuorum? && st.i == i == j then Master
           else n.view.roles[j]
  }

  /** A node that names no master is one; a slave of an unknown node keeps the master it had. */
  ghost function Announced(n: Node, j: Id, of: Option<Id>): Role
    requires j < |n.view.roles|
  {
    match of
    case None => Master
    case Some(x) =>
      if x in n.view.known then Slave(Some(x))
      else if n.view.roles[j].Slave? then n.view.roles[j] else Slave(None)
  }

  /** A winner takes the slots of its master and no others. */
  ghost predicate SlotRule(n: Node, i: Id, st: Step, n': Node) {
    || (st.Observe? && st.i == i)
    || (&& |n'.view.slots| == |n.view.slots|
        && forall j :: 0 <= j < |n.view.slots| ==>
             n'.view.slots[j] ==
             if && st.CheckQuorum? && st.i == i < |n.view.roles| && n.view.slots[j].Some?
                && n.view.roles[i] == Slave(n.view.slots[j]) then Some(i)
             else n.view.slots[j])
  }

  lemma OneRoleEach(n: Node)
    requires NodeOk(n, |n.config|)
    ensures |n.view.roles| == |n.config|
  {
  }

  lemma AttemptAsRuled(n: Node, i: Id, st: Step)
    requires NodeOk(n, |n.config|) && i < |n.config| && NodeBounded(n) && Actor(st) == i
    requires st.Deliver? ==> MsgOk(st.m, |n.config|)
    ensures AttemptRule(n, i, st, After(n, i, st))
  {
    hide Entitled, Grants, SlotsOf, ViewOk, MaxEpoch, MayBump;
    OneRoleEach(n);
    if st.Deliver? {
      VotedExactly(n, st.m, st.tooSoon);
      if Voted(n, st.m, st.tooSoon) { GrantEpoch(n, st.m, st.tooSoon); }
      ServesSlots(n.view, st.m.src);
    }
  }

  lemma TopExactly(n: Node, i: Id)
    requires i < |n.config| && NodeBounded(n)
    ensures AtTheTop(n, i) <==> n.config[i] == n.currentEpoch != 0
    ensures MayBump(n.config[i], MaxEpoch(n, |n.config|)) <==> !AtTheTop(n, i)
  {
    BumpIsFresh(n, i);
    assert n.config[i] in n.config;
    if n.config[i] == n.currentEpoch {
      forall e | e in n.config ensures e <= n.config[i] { }
    }
  }

  lemma CurrentAsRuled(n: Node, i: Id, st: Step)
    requires NodeOk(n, |n.config|) && i < |n.config| && NodeBounded(n) && Actor(st) == i
    requires st.Deliver? ==> MsgOk(st.m, |n.config|)
    ensures CurrentRule(n, i, st, After(n, i, st))
  {
    hide MaxEpoch, ViewOk, Grants, Counts, MayBump, AtTheTop;
    OneRoleEach(n);
    TopExactly(n, i);
  }

  lemma EntryHeard(n: Node, i: Id, m: Msg, tooSoon: bool)
    requires NodeOk(n, |n.config|) && i < |n.config| && m.dst == i && MsgOk(m, |n.config|)
    ensures EntryRule(n, i, Deliver(m, tooSoon), Receive(n, i, m, tooSoon))
  {
    hide ViewOk, Grants, Counts, IsMaxEpoch;
    OneRoleEach(n);
  }

  lemma EntryAsRuled(n: Node, i: Id, st: Step)
    requires NodeOk(n, |n.config|) && i < |n.config| && NodeBounded(n) && Actor(st) == i
    requires st.Deliver? ==> MsgOk(st.m, |n.config|)
    ensures EntryRule(n, i, st, After(n, i, st))
  {
    hide MaxEpoch, ViewOk, Receive, MayBump, AtTheTop;
    TopExactly(n, i);
    if st.Deliver? {
      EntryHeard(n, i, st.m, st.tooSoon);
    }
  }

  lemma RoleAsRuled(n: Node, i: Id, st: Step)
    requires NodeOk(n, |n.config|) && i < |n.config| && Actor(st) == i
    requires st.Deliver? ==> MsgOk(st.m, |n.config|)
    ensures RoleRule(n, i, st, After(n, i, st))
  {
    hide MaxEpoch, Grants, Counts, MayBump, ViewOk;
    OneRoleEach(n);
  }

  lemma SlotsAsRuled(n: Node, i: Id, st: Step)
    requires NodeOk(n, |n.config|) && i < |n.config| && Actor(st) == i
    requires st.Deliver? ==> MsgOk(st.m, |n.config|)
    ensures SlotRule(n, i, st, After(n, i, st))
  {
    hide MaxEpoch, Grants, Counts, MayBump, ViewOk;
    OneRoleEach(n);
  }

  /** All rules for one node; a step of another node changes nothing here. */
  ghost predicate NodeRules(n: Node, i: Id, st: Step, n': Node) {
    && AttemptRule(n, i, st, n') && CurrentRule(n, i, st, n') && EntryRule(n, i, st, n')
    && RoleRule(n, i, st, n') && SlotRule(n, i, st, n')
  }

  lemma ActorObeys(n: Node, i: Id, st: Step)
    requires NodeOk(n, |n.config|) && i < |n.config| && NodeBounded(n) && Actor(st) == i
    requires st.Deliver? ==> MsgOk(st.m, |n.config|)
    ensures NodeRules(n, i, st, After(n, i, st))
  {
    hide AttemptRule, CurrentRule, EntryRule, RoleRule, SlotRule, After;
    AttemptAsRuled(n, i, st);
    CurrentAsRuled(n, i, st);
    EntryAsRuled(n, i, st);
    RoleAsRuled(n, i, st);
    SlotsAsRuled(n, i, st);
  }

  lemma OthersObey(n: Node, i: Id, st: Step)
    requires Actor(st) != i
    ensures NodeRules(n, i, st, n)
  {
  }

  // ----- packets -----

  /** The packet tells the state of its sender, and the slots and epoch of its master if it has one. */
  ghost predicate SpeaksFor(n: Node, i: Id, m: Msg) {
    && i < |n.view.roles| && m.src == i && m.currentEpoch == n.currentEpoch
    && m.slaveof == (if n.view.roles[i].Slave? then n.view.roles[i].of else None)
    && var x := if m.slaveof.Some? then m.slaveof.value else i;
    && x < |n.config| && m.configEpoch == n.config[x]
    && forall j: nat :: j in m.claimed <==> j < |n.view.slots| && n.view.slots[j] == Some(x)
  }

  /** The step sends the packet; n is the sender before it and n' after it. */
  ghost predicate Sends(n: Node, n': Node, i: Id, size: nat, st: Step, m: Msg) {
    && SpeaksFor(n', i, m) && m.dst < size
    && match st
       case SendPing(_, dst) => m.kind == Ping && m.dst == dst && !m.force
       case SendUpdate(_, dst, about) =>
         about < |n'.config| && m.kind == Update(about, n'.config[about]) && m.dst == dst && !m.force
       case RequestVotes(_, manual) => m.kind == AuthRequest && m.dst != i && m.force == manual
       case Deliver(request, _) => IsGrant(n, i, st) && m.kind == AuthAck && m.dst == request.src && !m.force
       case _ => false
  }

  /** A delivered or lost packet leaves the bus, and exactly the packets the step sends enter it, once each. */
  ghost predicate PacketRule(s: System, st: Step, t: System) {
    && var i := Actor(st);
    && i < |s.nodes| && i < |t.nodes|
    && forall m {:trigger t.net[m]} ::
         t.net[m] + (if (st.Deliver? || st.Lose?) && st.m == m then 1 else 0) ==
         s.net[m] + if Sends(s.nodes[i], t.nodes[i], i, |s.nodes|, st, m) then 1 else 0
  }

  lemma HeaderSpeaks(n: Node, i: Id, dst: Id, kind: Kind, force: bool, m: Msg)
    requires NodeOk(n, |n.config|) && i < |n.config|
    ensures m == Header(n, i, dst, kind, force) <==>
            SpeaksFor(n, i, m) && m.dst == dst && m.kind == kind && m.force == force
  {
    var h := Header(n, i, dst, kind, force);
    assert n.view.roles[i] in n.view.roles;
    if SpeaksFor(n, i, m) && m.dst == dst && m.kind == kind && m.force == force {
      assert m.claimed == h.claimed;
    }
  }

  lemma AskedExactly(n: Node, i: Id, manual: bool, m: Msg)
    requires NodeOk(n, |n.config|) && i < |n.config|
    ensures m in Sent(n, i, RequestVotes(i, manual), false) <==>
            SpeaksFor(n, i, m) && m.dst < |n.config| && m.dst != i && m.kind == AuthRequest && m.force == manual
  {
    hide SpeaksFor, Header;
    HeaderSpeaks(n, i, m.dst, AuthRequest, manual, m);
    if m in Sent(n, i, RequestVotes(i, manual), false) {
      var d :| 0 <= d < |n.config| && d != i && m == Header(n, i, d, AuthRequest, manual);
      HeaderSpeaks(n, i, d, AuthRequest, manual, m);
    }
  }

  lemma SentExactly(n: Node, n': Node, i: Id, st: Step, voted: bool, m: Msg)
    requires NodeOk(n', |n'.config|) && i < |n'.config| && Actor(st) == i
    requires st.SendPing? ==> st.dst < |n'.config|
    requires st.SendUpdate? ==> st.about < |n'.config| && st.dst < |n'.config|
    requires st.Deliver? ==> st.m.src < |n'.config| && (voted <==> IsGrant(n, i, st))
    ensures m in Sent(n', i, st, voted) <==> Sends(n, n', i, |n'.config|, st, m)
  {
    hide SpeaksFor, Header, IsGrant;
    match st {
      case SendPing(_, dst) => HeaderSpeaks(n', i, dst, Ping, false, m);
      case SendUpdate(_, dst, about) => HeaderSpeaks(n', i, dst, Update(about, n'.config[about]), false, m);
      case RequestVotes(_, manual) => AskedExactly(n', i, manual, m);
      case Deliver(q, _) => HeaderSpeaks(n', i, q.src, AuthAck, false, m);
      case _ =>
    }
  }

  lemma NetAfter(s: System, st: Step)
    requires WellFormed(s) && Enabled(s, st)
    ensures var i, t := Actor(st), Apply(s, st);
            && i < |s.nodes| == |t.nodes| && NodeOk(s.nodes[i], |s.nodes[i].config|) && i < |s.nodes[i].config|
            && (st.Deliver? || st.Lose? ==> 0 < s.net[st.m])
            && (st.Deliver? ==> MsgOk(st.m, |s.nodes[i].config|))
            && (st.SendUpdate? ==> st.about < |s.nodes[i].config|)
            && t.nodes[i] == After(s.nodes[i], i, st) && NodeOk(t.nodes[i], |s.nodes[i].config|)
            && t.net == s.net - Taken(st) +
                        multiset(Sent(t.nodes[i], i, st, st.Deliver? && Voted(s.nodes[i], st.m, st.tooSoon)))
  {
    hide Sent, After, Voted, Counted, ViewOk;
    StepOk(s, st);
    AfterShape(s.nodes[Actor(st)], Actor(st), st);
  }

  lemma NetCount(net: multiset<Msg>, st: Step, sent: set<Msg>, net': multiset<Msg>, m: Msg)
    requires net' == net - Taken(st) + multiset(sent) && (st.Deliver? || st.Lose? ==> 0 < net[st.m])
    ensures net'[m] + (if (st.Deliver? || st.Lose?) && st.m == m then 1 else 0) == net[m] + if m in sent then 1 else 0
  {
  }

  lemma PacketsAsRuled(s: System, st: Step)
    requires WellFormed(s) && Enabled(s, st) && Bounded(s)
    ensures PacketRule(s, st, Apply(s, st))
  {
    hide Sends, Sent, After, Apply, Voted, ViewOk, Enabled, IsGrant, Taken, MsgBounded, NodeBounded;
    StepOk(s, st);
    var i, t := Actor(st), Apply(s, st);
    var n := s.nodes[i];
    AfterShape(n, i, st);
    var n' := After(n, i, st);
    var voted := st.Deliver? && Voted(n, st.m, st.tooSoon);
    if st.Deliver? { VotedExactly(n, st.m, st.tooSoon); }
    NetAfter(s, st);
    forall m
      ensures t.net[m] + (if (st.Deliver? || st.Lose?) && st.m == m then 1 else 0) ==
              s.net[m] + if Sends(n, n', i, |s.nodes|, st, m) then 1 else 0
    {
      SentExactly(n, n', i, st, voted, m);
      NetCount(s.net, st, Sent(n', i, st, voted), t.net, m);
    }
  }

  // ----- when a slave may act -----

  /** A slave whose master serves slots and has failed, or that fails over by hand. */
  ghost predicate Ready(s: System, i: Id, manual: bool) {
    && i < |s.nodes| && var v := s.nodes[i].view;
    && i < |v.roles| && v.roles[i].Slave? && v.roles[i].of.Some?
    && (v.roles[i].of.value in v.failed || manual) && Serves(v, v.roles[i].of.value)
  }

  /** An attempt needs such a slave; votes are asked for once in it; it is won with more than half of the cluster. */
  lemma FailoverExactly(s: System, i: Id, manual: bool)
    requires WellFormed(s)
    ensures Enabled(s, Schedule(i, manual)) <==> Ready(s, i, manual)
    ensures Enabled(s, RequestVotes(i, manual)) <==> Ready(s, i, manual) && !s.nodes[i].authSent
    ensures Enabled(s, CheckQuorum(i, manual)) <==>
            Ready(s, i, manual) && s.nodes[i].authSent && s.nodes[i].view.size < 2 * s.nodes[i].authCount
  {
    if i < |s.nodes| {
      var role := s.nodes[i].view.roles[i];
      if role.Slave? && role.of.Some? { ServesSlots(s.nodes[i].view, role.of.value); }
    }
  }

  /** An epoch may be set by hand only where the node knows no other and has none. */
  lemma SetByHandExactly(s: System, i: Id, epoch: nat)
    requires WellFormed(s)
    ensures Enabled(s, SetConfigEpoch(i, epoch)) <==>
            i < |s.nodes| && s.nodes[i].config[i] == 0 && forall j :: j in s.nodes[i].view.known ==> j == i
  {
  }

  // ----- whole runs -----

  lemma StepObeys(s: System, st: Step, i: Id)
    requires WellFormed(s) && Enabled(s, st) && Bounded(s) && i < |s.nodes|
    ensures i < |Apply(s, st).nodes| && NodeRules(s.nodes[i], i, st, Apply(s, st).nodes[i])
  {
    hide NodeRules, After, Receive, Sent, Voted, Counted, ViewOk, NodeBounded;
    StepOk(s, st);
    if i == Actor(st) {
      ActorObeys(s.nodes[i], i, st);
    } else {
      OthersObey(s.nodes[i], i, st);
    }
  }

  /** Every step of every run obeys the rules, at every node. */
  lemma RunsObey(states: seq<System>, steps: seq<Step>, k: nat)
    requires Run(states, steps) && k < |steps|
    ensures k + 1 < |states| && |states[k + 1].nodes| == |states[k].nodes|
    ensures VoteRule(states[k], steps[k], states[k + 1]) && PacketRule(states[k], steps[k], states[k + 1])
    ensures forall i :: 0 <= i < |states[k].nodes| ==>
                          NodeRules(states[k].nodes[i], i, steps[k], states[k + 1].nodes[i])
  {
    hide VoteRule, PacketRule, NodeRules, Apply, Enabled, Bounded, VotesOnce, WellFormed;
    EpochsBounded(states, steps);
    VoteOncePerEpoch(states, steps);
    RunStep(states, steps, k);
    var s, st := states[k], steps[k];
    VotesAsRuled(s, st);
    PacketsAsRuled(s, st);
    forall i | 0 <= i < |s.nodes| ensures NodeRules(s.nodes[i], i, st, states[k + 1].nodes[i]) {
      StepObeys(s, st, i);
    }
  }

  /** Winning: the slave becomes a master with its master's slots, at the epoch of the election unless it is at a
      greater one already. */
  lemma WinnerTakesOver(states: seq<System>, steps: seq<Step>, k: nat)
    requires Run(states, steps) && k < |steps| && steps[k].CheckQuorum?
    ensures k + 1 < |states|
    ensures var i := steps[k].i;
            && i < |states[k].nodes| == |states[k + 1].nodes|
            && var n, n' := states[k].nodes[i], states[k + 1].nodes[i];
            && i < |n.config| == |n'.config| == |n.view.roles| == |n'.view.roles|
            && n.view.roles[i].Slave? && n.view.roles[i].of.Some? && n'.view.roles[i] == Master
            && n'.config[i] == Max(n.config[i], n.authEpoch)
            && (forall j :: 0 <= j < |n.view.slots| == |n'.view.slots| && n.view.slots[j] == n.view.roles[i].of ==>
                              n'.view.slots[j] == Some(i))
            && Serves(n'.view, i)
            && exists w :: w in states[k + 1].wins && w.epoch == n.authEpoch && w.winner == i && w.count == n.authCount
  {
    RunStep(states, steps, k);
    var s, i := states[k], steps[k].i;
    FailoverExactly(s, i, steps[k].manual);
    var n := s.nodes[i];
    WinnerNode(n, i, steps[k]);
    hide TakeOver, Ready;
    assert Win(n.authEpoch, i, n.authCount, s.backers[i], s.stale[i]) in states[k + 1].wins;
  }

  lemma WinnerNode(n: Node, i: Id, st: Step)
    requires NodeOk(n, |n.config|) && i < |n.config| && st.CheckQuorum? && st.i == i
    requires n.view.roles[i].Slave? && n.view.roles[i].of.Some? && Serves(n.view, n.view.roles[i].of.value)
    ensures var n' := TakeOver(n, i);
            && |n'.config| == |n.config| == |n.view.roles| == |n'.view.roles| && n'.view.roles[i] == Master
            && n'.config[i] == Max(n.config[i], n.authEpoch)
            && (forall j :: 0 <= j < |n.view.slots| == |n'.view.slots| && n.view.slots[j] == n.view.roles[i].of ==>
                              n'.view.slots[j] == Some(i))
            && Serves(n'.view, i)
  {
    var n' := TakeOver(n, i);
    var j :| 0 <= j < |n.view.slots| && n.view.slots[j] == Some(n.view.roles[i].of.value);
    assert n'.view.slots[j] == Some(i);
  }

  lemma OwnStep(states: seq<System>, steps: seq<Step>, k: nat, i: Id)
    requires Run(states, steps) && k < |steps| && i < |states[k].nodes|
    ensures k + 1 < |states| && |states[k + 1].nodes| == |states[k].nodes|
    ensures i < |states[k].nodes[i].config| && i < |states[k + 1].nodes[i].config|
    ensures states[k].nodes[i].config[i] <= states[k + 1].nodes[i].config[i]
  {
    hide Apply, PacketRule, VoteRule, RoleRule, SlotRule, AttemptRule, AtTheTop;
    EpochsBounded(states, steps);
    RunStep(states, steps, k);
    RunsObey(states, steps, k);
    var n, n' := states[k].nodes[i], states[k + 1].nodes[i];
    assert NodeOk(n, |states[k].nodes|) && NodeBounded(n);
    assert EntryRule(n, i, steps[k], n') && CurrentRule(n, i, steps[k], n');
  }

  /** Over any run, the configEpoch a node has for itself never falls. */
  lemma {:induction false} OwnNeverFalls(states: seq<System>, steps: seq<Step>, a: nat, b: nat, i: Id)
    requires Run(states, steps) && a <= b <= |steps| && i < |states[0].nodes|
    ensures b < |states| && i < |states[a].nodes| && i < |states[b].nodes|
    ensures i < |states[a].nodes[i].config| && i < |states[b].nodes[i].config|
    ensures states[a].nodes[i].config[i] <= states[b].nodes[i].config[i]
    decreases b - a
  {
    EpochsBounded(states, steps);
    hide Run, Bounded;
    assert WellFormed(states[a]) && NodeOk(states[a].nodes[i], |states[a].nodes|);
    if a < b {
      OwnStep(states, steps, a, i);
      OwnNeverFalls(states, steps, a + 1, b, i);
    }
  }
}
