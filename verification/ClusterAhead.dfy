/** Two masters, one of whose tables is ahead of the other: why the bound on moves needs truthful updates, and the
    settling rounds tables that are not ahead. */
module ClusterAhead {

  import opened ClusterTypes
  import opened Collections
  import opened ClusterBus
  import opened ClusterCollisions
  import opened ClusterSettling

  function TwoMasters(): View {
    View([Master, Master], [], {}, {0, 1}, 2)
  }

  function Quiet(currentEpoch: nat, config: seq<nat>): Node {
    Node(currentEpoch, 0, config, 0, 0, false, TwoMasters())
  }

  function Pair(a: Node, b: Node, net: multiset<Msg>): System {
    System([a, b], net, {}, [{}, {}], [0, 0], {})
  }

  ghost predicate Small(n: Node) {
    |n.config| == 2 && n.view == TwoMasters()
  }

  lemma PairOk(a: Node, b: Node, net: multiset<Msg>)
    requires Small(a) && Small(b) && forall m :: m in net ==> MsgOk(m, 2)
    ensures WellFormed(Pair(a, b, net)) && AllMasters(Pair(a, b, net))
  {
  }

  /** A packet of node 1 to node 0. */
  function Packet(b: Node, kind: Kind): Msg
    requires Small(b)
  {
    Msg(kind, 1, 0, b.currentEpoch, b.config[1], None, {}, false)
  }

  lemma StartOk(a: Node, b: Node)
    requires Small(a) && Small(b) && a.lastVoteEpoch == 0 == b.lastVoteEpoch && !a.authSent && !b.authSent
    requires a.authEpoch == 0 == a.authCount && b.authEpoch == 0 == b.authCount
    requires forall j :: 0 <= j < 2 ==> a.config[j] <= a.currentEpoch && b.config[j] <= b.currentEpoch
    ensures Init(Pair(a, b, multiset{})) && AllMasters(Pair(a, b, multiset{}))
  {
    PairOk(a, b, multiset{});
  }

  lemma SentPacket(b: Node, st: Step, kind: Kind)
    requires Small(b)
    requires (st == SendPing(1, 0) && kind == Ping) || (st == SendUpdate(1, 0, 0) && kind == Update(0, b.config[0]))
    ensures NodeOk(b, 2) && Sent(b, 1, st, false) == {Packet(b, kind)}
  {
    assert b.view.roles[1] == Master;
    assert SlotsOf(TwoMasters(), 1) == {};
  }

  lemma Sends(a: Node, b: Node, st: Step, kind: Kind)
    requires Small(a) && Small(b)
    requires (st == SendPing(1, 0) && kind == Ping) || (st == SendUpdate(1, 0, 0) && kind == Update(0, b.config[0]))
    ensures var s := Pair(a, b, multiset{});
            WellFormed(s) && Enabled(s, st) && Apply(s, st) == Pair(a, b, multiset{Packet(b, kind)})
  {
    hide Sent, Packet;
    PairOk(a, b, multiset{});
    SentPacket(b, st, kind);
    var s := Pair(a, b, multiset{});
    assert s.nodes[1 := b] == s.nodes;
    assert s.net - Taken(st) + multiset(Sent(b, 1, st, false)) == multiset{Packet(b, kind)};
  }

  lemma Hears(a: Node, b: Node, kind: Kind, a': Node)
    requires Small(a) && Small(b) && MsgOk(Packet(b, kind), 2) && (kind == Ping || kind.Update?)
    requires a' == Receive(a, 0, Packet(b, kind), false)
    ensures var s := Pair(a, b, multiset{Packet(b, kind)});
            WellFormed(s) && Enabled(s, Deliver(Packet(b, kind), false)) &&
            Apply(s, Deliver(Packet(b, kind), false)) == Pair(a', b, multiset{})
  {
    hide Receive;
    PairOk(a, b, multiset{Packet(b, kind)});
    var s, m := Pair(a, b, multiset{Packet(b, kind)}), Packet(b, kind);
    AfterShape(a, 0, Deliver(m, false));
    assert s.nodes[0 := a'] == [a', b];
    assert s.net - Taken(Deliver(m, false)) + multiset(Sent(a', 0, Deliver(m, false), false)) == multiset{};
  }

  lemma UpdateTaken()
    ensures Receive(Quiet(7, [5, 0]), 0, Packet(Quiet(7, [7, 7]), Update(0, 7)), false) == Quiet(7, [7, 7])
  {
    assert [5, 0][1 := 7][0 := 7] == [7, 7];
  }

  lemma PingCollided()
    ensures Receive(Quiet(7, [7, 7]), 0, Packet(Quiet(7, [7, 7]), Ping), false) == Quiet(8, [8, 7])
  {
    assert [7, 7][1 := 7] == [7, 7] && [7, 7][0 := 8] == [8, 7] && [Master, Master][1 := Master] == [Master, Master];
  }

  lemma PingIgnored()
    ensures Receive(Quiet(9, [5, 9]), 0, Packet(Quiet(5, [0, 5]), Ping), false) == Quiet(9, [5, 9])
  {
    assert [5, 9][1 := 9] == [5, 9] && [Master, Master][1 := Master] == [Master, Master];
  }

  /** Node 1 holds epoch 7 and believes the same of node 0, which holds 5. It reports 7 to node 0, which takes it over,
      and then node 0 collides with it: two moves of a master with one greater name. */
  lemma UntruthfulUpdateMovesTwice() returns (states: seq<System>, steps: seq<Step>)
    ensures Run(states, steps) && AllMasters(states[0]) && forall k :: 0 <= k < |steps| ==> CalmStep(steps[k])
    ensures |states[0].nodes| == 2 && Moves(states, |steps|, 0) == 2
  {
    hide Receive, Apply, Enabled, AllMasters, WellFormed, Init, Moves;
    var b := Quiet(7, [7, 7]);
    var a0, a1, a2 := Quiet(7, [5, 0]), Quiet(7, [7, 7]), Quiet(8, [8, 7]);
    var update, ping := Packet(b, Update(0, 7)), Packet(b, Ping);
    UpdateTaken();
    PingCollided();
    Sends(a0, b, SendUpdate(1, 0, 0), Update(0, 7));
    Hears(a0, b, Update(0, 7), a1);
    Sends(a1, b, SendPing(1, 0), Ping);
    Hears(a1, b, Ping, a2);
    states := [Pair(a0, b, multiset{}), Pair(a0, b, multiset{update}), Pair(a1, b, multiset{}),
               Pair(a1, b, multiset{ping}), Pair(a2, b, multiset{})];
    steps := [SendUpdate(1, 0, 0), Deliver(update, false), SendPing(1, 0), Deliver(ping, false)];
    StartOk(a0, b);
    MovesOfFour(states);
  }

  lemma MovesOfFour(states: seq<System>)
    requires |states| == 5 && Own(states[0], 0) == Own(states[1], 0) != Own(states[2], 0) == Own(states[3], 0)
    requires Own(states[3], 0) != Own(states[4], 0)
    ensures Moves(states, 4, 0) == 2
  {
    hide Own;
    assert Moves(states, 1, 0) == 0;
    assert Moves(states, 2, 0) == 1;
    assert Moves(states, 3, 0) == 1;
  }

  /** Both masters hold epoch 5, but node 0 believes 9 of node 1: the present header of node 1 moves no one, and the
      two stay at one epoch. */
  lemma AheadTableStaysPut() returns (states: seq<System>, steps: seq<Step>)
    ensures CalmRun(states, steps) && states[|steps|] == states[0] && !AllDiffer(states[0])
    ensures exists k :: 0 <= k < |steps| && steps[k].Deliver? && steps[k].m.kind == Ping && steps[k].m.src == 1 &&
                        steps[k].m.dst == 0 && steps[k].m.configEpoch == Own(states[k], 1)
  {
    hide Receive, Apply, Enabled, AllMasters, WellFormed, Init;
    var a, b := Quiet(9, [5, 9]), Quiet(5, [0, 5]);
    var ping := Packet(b, Ping);
    PingIgnored();
    Sends(a, b, SendPing(1, 0), Ping);
    Hears(a, b, Ping, a);
    states := [Pair(a, b, multiset{}), Pair(a, b, multiset{ping}), Pair(a, b, multiset{})];
    steps := [SendPing(1, 0), Deliver(ping, false)];
    StartOk(a, b);
    assert Own(states[0], 0) == 5 == Own(states[0], 1);
    assert CalmAt(states, steps, 0) && CalmAt(states, steps, 1);
    assert steps[1].Deliver? && Own(states[1], 1) == 5;
  }
}
