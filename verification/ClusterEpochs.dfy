/** Epoch bounds over every run of the cluster bus: a node's currentEpoch bounds every configEpoch
    it knows, and the currentEpoch in a packet bounds every configEpoch beside it. */
module ClusterEpochs {
  import opened ClusterTypes
  import opened ClusterBus

  ghost predicate NodeBounded(n: Node) {
    && (forall j :: 0 <= j < |n.config| ==> n.config[j] <= n.currentEpoch)
    && n.authEpoch <= n.currentEpoch && n.lastVoteEpoch <= n.currentEpoch
  }

  ghost predicate MsgBounded(m: Msg) {
    m.configEpoch <= m.currentEpoch && (m.kind.Update? ==> m.kind.epoch <= m.currentEpoch)
  }

  ghost predicate Bounded(s: System) {
    && (forall i :: 0 <= i < |s.nodes| ==> NodeBounded(s.nodes[i]))
    && (forall m :: m in s.net ==> MsgBounded(m))
  }

  /** No step lowers a currentEpoch, an election epoch or the last voted epoch. */
  ghost predicate Grows(n: Node, n': Node) {
    n.currentEpoch <= n'.currentEpoch && n.authEpoch <= n'.authEpoch && n.lastVoteEpoch <= n'.lastVoteEpoch
  }

  lemma AfterBounded(n: Node, me: Id, st: Step)
    requires NodeOk(n, |n.config|) && me < |n.config| && NodeBounded(n)
    requires st.Deliver? ==> MsgOk(st.m, |n.config|) && MsgBounded(st.m)
    requires st.Observe? ==> ViewOk(st.view, |n.config|)
    ensures NodeBounded(After(n, me, st)) && Grows(n, After(n, me, st))
  {
  }

  lemma SentBounded(n: Node, me: Id, st: Step, voted: bool)
    requires NodeOk(n, |n.config|) && me < |n.config| && NodeBounded(n)
    requires st.SendUpdate? ==> st.about < |n.config|
    ensures forall m :: m in Sent(n, me, st, voted) ==> MsgBounded(m) && m.currentEpoch == n.currentEpoch && m.src == me
  {
    assert n.view.roles[me] in n.view.roles;
  }

  lemma ApplyBounded(s: System, st: Step)
    requires WellFormed(s) && Enabled(s, st) && Bounded(s)
    ensures Bounded(Apply(s, st))
  {
    hide Receive, After, Sent, Enabled, ViewOk, Voted, Counted, NodeBounded, MsgBounded;
    StepOk(s, st);
    var i := Actor(st);
    AfterShape(s.nodes[i], i, st);
    AfterBounded(s.nodes[i], i, st);
    SentBounded(After(s.nodes[i], i, st), i, st, st.Deliver? && Voted(s.nodes[i], st.m, st.tooSoon));
  }

  /** In every state of every run, every configEpoch in a table or in a packet is at most the
      currentEpoch beside it. */
  lemma {:induction false} EpochsBounded(states: seq<System>, steps: seq<Step>)
    requires Run(states, steps)
    ensures forall k :: 0 <= k < |states| ==>
                          WellFormed(states[k]) && Bounded(states[k]) && |states[k].nodes| == |states[0].nodes|
    decreases |steps|
  {
    if |steps| != 0 {
      var n := |steps| - 1;
      EpochsBounded(states[..n + 1], steps[..n]);
      assert WellFormed(states[..n + 1][n]) && Bounded(states[..n + 1][n]);
      ApplyShape(states[n], steps[n]);
      ApplyBounded(states[n], steps[n]);
      forall k | 0 <= k < |states|
        ensures WellFormed(states[k]) && Bounded(states[k]) && |states[k].nodes| == |states[0].nodes|
      {
        if k <= n { assert states[k] == states[..n + 1][k]; }
      }
    }
  }

  /** The first k epochs in a node's table. */
  function TableEpochs(n: Node, k: nat): set<nat>
    requires k <= |n.config|
  {
    set j | 0 <= j < k :: n.config[j]
  }

  /** The recurrence of the bus computes the greatest epoch the node knows. */
  lemma {:induction false} MaxEpochBounds(n: Node, k: nat)
    requires k <= |n.config|
    ensures IsMaxEpoch(MaxEpoch(n, k), n.currentEpoch, TableEpochs(n, k))
  {
    if k != 0 {
      MaxEpochBounds(n, k - 1);
      assert TableEpochs(n, k) == TableEpochs(n, k - 1) + {n.config[k - 1]};
    }
  }

  /** On a bounded node the greatest known epoch is the currentEpoch, so a bump leaves a node alone
      exactly when it already holds that epoch and is not at zero, and otherwise gives it an epoch
      above every epoch it knows. */
  lemma BumpIsFresh(n: Node, me: Id)
    requires me < |n.config| && NodeBounded(n)
    ensures MaxEpoch(n, |n.config|) == n.currentEpoch
    ensures BumpEpoch(n, me) == n <==> n.config[me] == n.currentEpoch != 0
    ensures BumpEpoch(n, me) != n ==> forall j :: 0 <= j < |n.config| ==> n.config[j] < BumpEpoch(n, me).config[me]
  {
    MaxEpochBounds(n, |n.config|);
  }

  /** The same for a collision step. */
  lemma CollideIsFresh(n: Node, me: Id, src: Id)
    requires me < |n.config| && src < |n.config| && NodeBounded(n)
    ensures Collide(n, me, src) != n ==> forall j :: 0 <= j < |n.config| ==>
            n.config[j] < Collide(n, me, src).config[me]
    ensures Collide(n, me, src) != n <==> me < src && n.config[src] == n.config[me]
  {
    if me < src && n.config[src] == n.config[me] {
      assert Collide(n, me, src).currentEpoch != n.currentEpoch;
    }
  }
}
