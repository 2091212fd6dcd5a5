/** Masters that keep hearing each other end with different configEpochs: a round in which every master hears
    the present epoch of every greater name either moves someone or ends with all epochs different. */
module ClusterSettling {

  import opened ClusterTypes
  import opened ClusterBus
  import opened ClusterCollisions
  import opened ClusterEpochs

  ghost predicate AllDiffer(s: System) {
    forall i, j :: 0 <= i < j < |s.nodes| ==> Own(s, i) != Own(s, j)
  }

  /** Step k delivers to i a ping of j that carries the epoch j has at that moment, and the table of i is not
      ahead of it. */
  ghost predicate HearsPresent(states: seq<System>, steps: seq<Step>, k: nat, i: Id, j: Id) {
    && k < |steps| && k < |states| && steps[k].Deliver? && Entry(states[k], i, j) <= Own(states[k], j)
    && var m := steps[k].m; m.kind == Ping && m.src == j && m.dst == i && m.configEpoch == Own(states[k], j)
  }

  ghost predicate HeardIn(states: seq<System>, steps: seq<Step>, a: nat, b: nat, i: Id, j: Id) {
    exists k :: a <= k < b && HearsPresent(states, steps, k, i, j)
  }

  /** From state a to state b every master hears every greater name. */
  ghost predicate FullRound(states: seq<System>, steps: seq<Step>, a: nat, b: nat) {
    && a <= b <= |steps| && 0 < |states|
    && forall i: Id, j: Id :: i < j < |states[0].nodes| ==> HeardIn(states, steps, a, b, i, j)
  }

  lemma PingCollides(n: Node, me: Id, m: Msg, tooSoon: bool)
    requires NodeOk(n, |n.config|) && MsgOk(m, |n.config|) && me < m.src && NodeMasters(n) && NodeBounded(n)
    requires m.kind == Ping && m.slaveof.None? && m.configEpoch == n.config[me]
    ensures var n' := Receive(n, me, m, tooSoon);
            |n'.config| == |n.config| && (n'.config[me] != n.config[me] <==> n.config[m.src] <= m.configEpoch)
  {
    assert n.view.roles[m.src := Master] == n.view.roles;
  }

  /** Hearing its own epoch from a greater name moves a master, exactly when its table is not ahead of that name. */
  lemma PingMoves(s: System, m: Msg, tooSoon: bool)
    requires Calm(s) && m in s.net && m.kind == Ping && m.dst < m.src < |s.nodes|
    requires m.configEpoch == Own(s, m.src) == Own(s, m.dst)
    ensures Own(Apply(s, Deliver(m, tooSoon)), m.dst) != Own(s, m.dst) <==> Entry(s, m.dst, m.src) <= Own(s, m.src)
  {
    assert PacketOk(s, m);
    PingCollides(s.nodes[m.dst], m.dst, m, tooSoon);
    CalmApply(s, Deliver(m, tooSoon));
    hide Receive, Apply, Sent, NodeMasters;
  }

  lemma {:induction false} OwnStays(states: seq<System>, a: nat, b: nat, k: nat, i: Id)
    requires a <= k <= b < |states| && Moves(states, b, i) == Moves(states, a, i)
    ensures Own(states[k], i) == Own(states[a], i) && Moves(states, k, i) == Moves(states, a, i)
    decreases b
  {
    if a < b {
      MovesGrow(states, a, b - 1, i);
      if k < b {
        OwnStays(states, a, b - 1, k, i);
      } else {
        OwnStays(states, a, b - 1, b - 1, i);
      }
    }
  }

  lemma {:induction false} MovesGrow(states: seq<System>, a: nat, b: nat, i: Id)
    requires a <= b < |states|
    ensures Moves(states, a, i) <= Moves(states, b, i)
    decreases b
  {
    if a < b {
      MovesGrow(states, a, b - 1, i);
    }
  }

  ghost predicate Still(states: seq<System>, a: nat, b: nat, n: nat)
    requires a < |states| && b < |states|
  {
    forall i: Id {:trigger Moves(states, a, i)} :: i < n ==> Moves(states, b, i) == Moves(states, a, i)
  }

  lemma HearingMoves(states: seq<System>, steps: seq<Step>, k: nat, i: Id, j: Id)
    requires CalmRun(states, steps) && HearsPresent(states, steps, k, i, j) && i < j < |states[0].nodes|
    requires Own(states[k], i) == Own(states[k], j)
    ensures k + 1 < |states| && Own(states[k + 1], i) != Own(states[k], i)
  {
    hide CalmRun, Apply, Calm, Own;
    AlwaysCalm(states, steps, k);
    CalmSteps(states, steps, k);
    PingMoves(states[k], steps[k].m, steps[k].tooSoon);
  }

  lemma StillPair(states: seq<System>, steps: seq<Step>, a: nat, b: nat, i: Id, j: Id)
    requires CalmRun(states, steps) && FullRound(states, steps, a, b) && i < j < |states[0].nodes|
    requires b < |states| && Still(states, a, b, |states[0].nodes|)
    ensures Own(states[b], i) != Own(states[b], j)
  {
    hide CalmRun, Own, Moves, HearsPresent;
    assert HeardIn(states, steps, a, b, i, j);
    var k :| a <= k < b && HearsPresent(states, steps, k, i, j);
    assert Moves(states, a, i) == Moves(states, b, i) && Moves(states, a, j) == Moves(states, b, j);
    OwnStays(states, a, b, k, i);
    OwnStays(states, a, b, k, j);
    OwnStays(states, a, b, k + 1, i);
    OwnStays(states, a, b, b, i);
    OwnStays(states, a, b, b, j);
    if Own(states[k], i) == Own(states[k], j) {
      HearingMoves(states, steps, k, i, j);
      assert false;
    }
  }

  /** A full round in which no one moves ends with all epochs different. */
  lemma StillRoundSettles(states: seq<System>, steps: seq<Step>, a: nat, b: nat)
    requires CalmRun(states, steps) && FullRound(states, steps, a, b)
    requires b < |states| && Still(states, a, b, |states[0].nodes|)
    ensures AllDiffer(states[b])
  {
    hide CalmRun, Calm, Still, Own;
    AlwaysCalm(states, steps, b);
    forall i, j | 0 <= i < j < |states[b].nodes| ensures Own(states[b], i) != Own(states[b], j) {
      StillPair(states, steps, a, b, i, j);
    }
  }

  lemma {:induction false} TotalGrows(states: seq<System>, a: nat, b: nat, i: Id, n: nat)
    requires a <= b < |states| && i <= n
    ensures TotalMoves(states, a, i, n) <= TotalMoves(states, b, i, n)
    ensures TotalMoves(states, a, i, n) == TotalMoves(states, b, i, n) ==>
              forall j: Id {:trigger Moves(states, a, j)} :: i <= j < n ==> Moves(states, b, j) == Moves(states, a, j)
    decreases n - i
  {
    hide Moves;
    if i < n {
      TotalGrows(states, a, b, i + 1, n);
      MovesGrow(states, a, b, i);
    }
  }

  /** Consecutive full rounds: the r-th goes from state cuts[r] to state cuts[r + 1]. */
  ghost predicate Rounds(states: seq<System>, steps: seq<Step>, cuts: seq<nat>) {
    && cuts != [] && |states| == |steps| + 1 && cuts[0] <= |steps|
    && forall r :: 0 <= r < |cuts| - 1 ==> FullRound(states, steps, cuts[r], cuts[r + 1])
  }

  lemma CutsInside(states: seq<System>, steps: seq<Step>, cuts: seq<nat>, r: nat)
    requires Rounds(states, steps, cuts) && r < |cuts|
    ensures cuts[r] < |states|
  {
    assert 0 < r ==> FullRound(states, steps, cuts[r - 1], cuts[r - 1 + 1]);
  }

  /** How many of the first r rounds end with two masters at one epoch. */
  ghost function Unsettled(states: seq<System>, cuts: seq<nat>, r: nat): nat
    requires r < |cuts|
  {
    if r == 0 then 0
    else Unsettled(states, cuts, r - 1) + if cuts[r] < |states| && AllDiffer(states[cuts[r]]) then 0 else 1
  }

  lemma {:induction false} UnsettledMoves(states: seq<System>, steps: seq<Step>, cuts: seq<nat>, r: nat)
    requires CalmRun(states, steps) && Rounds(states, steps, cuts) && r < |cuts|
    ensures cuts[r] < |states| && Unsettled(states, cuts, r) <= TotalMoves(states, cuts[r], 0, |states[0].nodes|)
  {
    hide CalmRun, AllDiffer;
    CutsInside(states, steps, cuts, r);
    if r != 0 {
      var n := |states[0].nodes|;
      UnsettledMoves(states, steps, cuts, r - 1);
      assert FullRound(states, steps, cuts[r - 1], cuts[r - 1 + 1]);
      TotalGrows(states, cuts[r - 1], cuts[r], 0, n);
      if TotalMoves(states, cuts[r - 1], 0, n) == TotalMoves(states, cuts[r], 0, n) {
        assert Still(states, cuts[r - 1], cuts[r], n);
        StillRoundSettles(states, steps, cuts[r - 1], cuts[r]);
      }
    }
  }

  /** Over any run with stale packets in any order, all but n(n-1)/2 of the full rounds end with all epochs
      different. */
  lemma RoundsSettle(states: seq<System>, steps: seq<Step>, cuts: seq<nat>)
    requires CalmRun(states, steps) && Rounds(states, steps, cuts)
    ensures var n := |states[0].nodes|; 2 * Unsettled(states, cuts, |cuts| - 1) <= n * (n - 1)
  {
    var last, n := |cuts| - 1, |states[0].nodes|;
    UnsettledMoves(states, steps, cuts, last);
    RunShape(states, steps, |steps|);
    hide CalmRun, Rounds, Unsettled;
    TotalGrows(states, cuts[last], |steps|, 0, n);
    ResolutionStops(states, steps);
  }

  /** So after more than n(n-1)/2 full rounds there has been a state with all epochs different. */
  lemma SettlesInTime(states: seq<System>, steps: seq<Step>, cuts: seq<nat>) returns (r: nat)
    requires CalmRun(states, steps) && Rounds(states, steps, cuts)
    requires |states[0].nodes| * (|states[0].nodes| - 1) < 2 * (|cuts| - 1)
    ensures 0 < r < |cuts| && cuts[r] < |states| && AllDiffer(states[cuts[r]])
  {
    RoundsSettle(states, steps, cuts);
    hide CalmRun, Rounds;
    r := SomeSettled(states, cuts, |cuts| - 1);
  }

  lemma {:induction false} SomeSettled(states: seq<System>, cuts: seq<nat>, q: nat) returns (r: nat)
    requires q < |cuts| && Unsettled(states, cuts, q) < q
    ensures 0 < r <= q && cuts[r] < |states| && AllDiffer(states[cuts[r]])
  {
    hide AllDiffer;
    if cuts[q] < |states| && AllDiffer(states[cuts[q]]) {
      r := q;
    } else {
      r := SomeSettled(states, cuts, q - 1);
    }
  }

  // ----- a start that is not ahead -----

  /** No table is ahead of the node it speaks about. */
  ghost predicate NotAhead(s: System) {
    forall i: Id, j: Id :: i < |s.nodes| && j < |s.nodes| ==> Entry(s, i, j) <= Own(s, j)
  }

  lemma EntryKept(s: System, st: Step, i: Id, j: Id)
    requires Calm(s) && Enabled(s, st) && CalmStep(st) && NotAhead(s) && i < |s.nodes| && j < |s.nodes|
    ensures Entry(Apply(s, st), i, j) <= Own(Apply(s, st), j)
  {
    hide Receive, After, Sent, Apply, AllMasters, Bounded, PacketOk, CalmStep;
    CalmApply(s, st);
    CalmAfter(s.nodes[Actor(st)], Actor(st), st);
    CalmOwn(s, st, j);
    assert Entry(s, i, j) <= Own(s, j);
    if st.Deliver? && i == st.m.dst {
      CalmDelivery(s, st.m, st.tooSoon);
    }
  }

  lemma NotAheadKept(s: System, st: Step)
    requires Calm(s) && Enabled(s, st) && CalmStep(st) && NotAhead(s)
    ensures NotAhead(Apply(s, st)) && Truthful(s, st)
  {
    StepOk(s, st);
    ApplyShape(s, st);
    hide Apply, Calm, Enabled, CalmStep, Entry;
    forall i: Id, j: Id | i < |s.nodes| && j < |s.nodes| ensures Entry(Apply(s, st), i, j) <= Own(Apply(s, st), j) {
      EntryKept(s, st, i, j);
    }
  }

  lemma CalmAppend(states: seq<System>, steps: seq<Step>, n: nat)
    requires Run(states, steps) && |steps| == n + 1 && CalmRun(states[..n + 1], steps[..n])
    requires CalmStep(steps[n]) && Truthful(states[n], steps[n])
    ensures CalmRun(states, steps)
  {
    hide Run, CalmStep, Truthful, AllMasters;
    RunStep(states, steps, n);
    var states', steps' := states[..n + 1], steps[..n];
    assert states'[0] == states[0];
    forall k | 0 <= k < |steps| ensures CalmAt(states, steps, k) {
      if k < n {
        assert CalmAt(states', steps', k) && states'[k] == states[k] && steps'[k] == steps[k];
      }
    }
  }

  /** From a start among masters in which no table is ahead, every run of calm steps reports only epochs that were
      reached, and no table is ever ahead: so every present header that is delivered is heard. */
  lemma {:induction false} NotAheadRun(states: seq<System>, steps: seq<Step>)
    requires Run(states, steps) && AllMasters(states[0]) && NotAhead(states[0])
    requires forall k :: 0 <= k < |steps| ==> CalmStep(steps[k])
    ensures CalmRun(states, steps) && NotAhead(states[|steps|])
    decreases |steps|
  {
    if |steps| != 0 {
      var n := |steps| - 1;
      RunPrefix(states, steps, n);
      RunStep(states, steps, n);
      NotAheadRun(states[..n + 1], steps[..n]);
      LastStep(states, steps, n);
      CalmAppend(states, steps, n);
    }
  }

  lemma LastStep(states: seq<System>, steps: seq<Step>, n: nat)
    requires n + 1 < |states| && n < |steps| && CalmRun(states[..n + 1], steps[..n]) && NotAhead(states[n])
    requires WellFormed(states[n]) && Enabled(states[n], steps[n]) && CalmStep(steps[n])
    requires states[n + 1] == Apply(states[n], steps[n])
    ensures NotAhead(states[n + 1]) && Truthful(states[n], steps[n])
  {
    hide CalmRun, Apply, Enabled, CalmStep, NotAhead, Truthful;
    AlwaysCalm(states[..n + 1], steps[..n], n);
    NotAheadKept(states[n], steps[n]);
  }
}
