/** Why the quorum argument needs fair runs: the count of a failover attempt is reset before its
    epoch moves on, so a vote of the previous attempt arriving in between counts for the next. */
module ClusterStaleVote {
  import opened ClusterTypes
  import opened Collections
  import opened ClusterBus
  import opened ClusterVotes

  ghost function Voters(n: nat): nat -> set<Id> {
    _ => Below(n)
  }

  /** A run in which nodes 0 to n - 1 are the agreed voters of every epoch, and exactly the given steps count a vote
      before the counting node has asked for any. */
  ghost predicate Story(states: seq<System>, steps: seq<Step>, n: nat, early: set<nat>) {
    && AgreedRun(states, steps, Voters(n)) && WellFormed(states[|steps|])
    && forall k: nat :: EarlyAt(states, steps, k) <==> k in early
  }

  ghost function Noted(early: set<nat>, s: System, st: Step, k: nat): set<nat>
    requires WellFormed(s) && Enabled(s, st)
  {
    if EarlyVote(s, st) then early + {k} else early
  }

  lemma ExtendAgreed(states: seq<System>, steps: seq<Step>, V: nat -> set<Id>, st: Step)
    requires AgreedRun(states, steps, V) && WellFormed(states[|steps|]) && Enabled(states[|steps|], st)
    requires Agreed(states[|steps|], st, V)
    ensures var t := Apply(states[|steps|], st); WellFormed(t) && AgreedRun(states + [t], steps + [st], V)
  {
    hide Apply, Enabled, Agreed, WellFormed, Init;
    var states', steps' := states + [Apply(states[|steps|], st)], steps + [st];
    ApplyShape(states[|steps|], st);
    forall k | 0 <= k < |steps'|
      ensures WellFormed(states'[k]) && Enabled(states'[k], steps'[k]) && states'[k + 1] == Apply(states'[k], steps'[k])
      ensures AgreedAt(states', steps', V, k)
    {
      if k < |steps| {
        assert AgreedAt(states, steps, V, k);
        assert states'[k] == states[k] && states'[k + 1] == states[k + 1] && steps'[k] == steps[k];
      }
    }
  }

  lemma ExtendEarly(states: seq<System>, steps: seq<Step>, t: System, st: Step, k: nat)
    requires |states| == |steps| + 1 && WellFormed(states[|steps|]) && Enabled(states[|steps|], st)
    ensures EarlyAt(states + [t], steps + [st], k) <==>
            if k == |steps| then EarlyVote(states[|steps|], st) else EarlyAt(states, steps, k)
  {
    hide Enabled, EarlyVote, WellFormed;
  }

  lemma StoryShape(states: seq<System>, steps: seq<Step>, n: nat, early: set<nat>)
    requires Story(states, steps, n, early)
    ensures |states| == |steps| + 1 && |steps| !in early
  {
    hide Init, Apply, Enabled, Agreed, EarlyVote, WellFormed;
    assert !EarlyAt(states, steps, |steps|);
  }

  lemma Extend(states: seq<System>, steps: seq<Step>, n: nat, early: set<nat>, st: Step)
    returns (states': seq<System>, steps': seq<Step>)
    requires Story(states, steps, n, early) && Enabled(states[|steps|], st) && Agreed(states[|steps|], st, Voters(n))
    ensures var early' := Noted(early, states[|steps|], st, |steps|);
            Story(states', steps', n, early') && |early'| == |early| + if EarlyVote(states[|steps|], st) then 1 else 0
    ensures |states'| == |steps'| + 1 == |steps| + 2 && states'[|steps'|] == Apply(states[|steps|], st)
  {
    hide Apply, Enabled, Agreed, EarlyVote, EarlyAt, AgreedRun, WellFormed;
    StoryShape(states, steps, n, early);
    var s, t := states[|steps|], Apply(states[|steps|], st);
    states', steps' := states + [t], steps + [st];
    ExtendAgreed(states, steps, Voters(n), st);
    forall k: nat ensures EarlyAt(states', steps', k) <==> k in Noted(early, s, st, |steps|) {
      ExtendEarly(states, steps, t, st, k);
    }
  }

  // ----- the scene -----

  /** Nodes 0 to n - 1 are masters with one slot each; nodes n and n + 1 are slaves of node 0. */
  ghost function Scene(n: nat): View {
    View(seq(n + 2, i => if i < n then Master else Slave(Some(0))), seq(n, i => Some(i)), {}, Below(n + 2), n)
  }

  function Zeros(n: nat): seq<nat> {
    seq(n, _ => 0)
  }

  lemma ZerosAre(n: nat)
    ensures |Zeros(n)| == n && forall i :: 0 <= i < n ==> Zeros(n)[i] == 0
  {
  }

  ghost predicate Placed(x: Node, n: nat) {
    0 < n && x.view == Scene(n) && x.config == Zeros(n + 2)
  }

  ghost predicate Stage(s: System, n: nat) {
    WellFormed(s) && |s.nodes| == n + 2 && forall i :: 0 <= i < n + 2 ==> Placed(s.nodes[i], n)
  }

  predicate Candidate(n: nat, c: Id) {
    n <= c < n + 2
  }

  function Request(c: Id, d: Id, e: nat): Msg {
    Msg(AuthRequest, c, d, e, 0, Some(0), {0}, true)
  }

  function Ballot(v: Id, c: Id, e: nat): Msg {
    Msg(AuthAck, v, c, e, 0, None, {v}, false)
  }

  lemma SceneOk(n: nat)
    requires 0 < n
    ensures ViewOk(Scene(n), n + 2)
  {
  }

  lemma OneSlot(n: nat, v: Id)
    requires v < n
    ensures SlotsOf(Scene(n), v) == {v}
  {
    assert Scene(n).slots[v] == Some(v);
  }

  // ----- one node -----

  lemma HearNothing(x: Node, n: nat, m: Msg)
    requires Placed(x, n) && m.src < n + 2 && m.configEpoch == 0
    ensures Hear(x, m) == x.(currentEpoch := Max(x.currentEpoch, m.currentEpoch))
  {
    assert x.config[m.src := 0] == x.config;
  }

  lemma VoterNode(x: Node, n: nat, v: Id, c: Id, e: nat)
    requires Placed(x, n) && v < n && Candidate(n, c) && x.currentEpoch <= e && x.lastVoteEpoch != e
    ensures NodeOk(x, n + 2)
    ensures var x' := x.(currentEpoch := e, lastVoteEpoch := e);
            && Voted(x, Request(c, v, e), false) && Receive(x, v, Request(c, v, e), false) == x'
            && NodeOk(x', n + 2) && Header(x', v, c, AuthAck, false) == Ballot(v, c, e)
  {
    SceneOk(n);
    OneSlot(n, v);
    HearNothing(x, n, Request(c, v, e));
  }

  lemma CounterNode(x: Node, n: nat, v: Id, c: Id, e: nat)
    requires Placed(x, n) && v < n && Candidate(n, c) && x.authEpoch <= e <= x.currentEpoch
    ensures NodeOk(x, n + 2) && Counted(x, Ballot(v, c, e)) && !Voted(x, Ballot(v, c, e), false)
    ensures Receive(x, c, Ballot(v, c, e), false) == x.(authCount := x.authCount + 1)
  {
    SceneOk(n);
    OneSlot(n, v);
    HearNothing(x, n, Ballot(v, c, e));
  }

  lemma HearerNode(x: Node, n: nat, c: Id, d: Id, e: nat)
    requires Placed(x, n) && Candidate(n, c) && Candidate(n, d)
    ensures NodeOk(x, n + 2) && !Counted(x, Request(c, d, e)) && !Voted(x, Request(c, d, e), false)
    ensures Receive(x, d, Request(c, d, e), false) == x.(currentEpoch := Max(x.currentEpoch, e))
  {
    SceneOk(n);
    HearNothing(x, n, Request(c, d, e));
  }

  lemma AskerNode(x: Node, n: nat, c: Id)
    requires Placed(x, n) && Candidate(n, c)
    ensures NodeOk(x, n + 2) && CanFailOver(x, c, true)
    ensures var e := x.currentEpoch + 1;
            var x' := x.(currentEpoch := e, authEpoch := e, authSent := true);
            && NodeOk(x', n + 2) && After(x, c, RequestVotes(c, true)) == x'
            && forall d: Id :: d < n + 2 && d != c ==> Request(c, d, e) in Sent(x', c, RequestVotes(c, true), false)
  {
    SceneOk(n);
    OneSlot(n, 0);
    var e := x.currentEpoch + 1;
    var x' := x.(currentEpoch := e, authEpoch := e, authSent := true);
    forall d: Id | d < n + 2 && d != c ensures Request(c, d, e) in Sent(x', c, RequestVotes(c, true), false) {
      assert Header(x', c, d, AuthRequest, true) == Request(c, d, e);
    }
  }

  // ----- one step -----

  lemma Asks(s: System, n: nat, c: Id)
    requires Stage(s, n) && Candidate(n, c) && !s.nodes[c].authSent
    ensures Enabled(s, RequestVotes(c, true)) && Agreed(s, RequestVotes(c, true), Voters(n))
    ensures !EarlyVote(s, RequestVotes(c, true))
    ensures var t := Apply(s, RequestVotes(c, true));
            var e := s.nodes[c].currentEpoch + 1;
            && Stage(t, n) && t.wins == s.wins && t.stale == s.stale
            && t.nodes == s.nodes[c := s.nodes[c].(currentEpoch := e, authEpoch := e, authSent := true)]
            && (forall d: Id :: d < n + 2 && d != c ==> Request(c, d, e) in t.net)
            && (forall m :: m in s.net ==> m in t.net)
  {
    hide CanFailOver, Sent, After, ViewOk, Scene;
    AskerNode(s.nodes[c], n, c);
    ApplyShape(s, RequestVotes(c, true));
  }

  lemma Votes(s: System, n: nat, v: Id, c: Id, e: nat)
    requires Stage(s, n) && v < n && Candidate(n, c) && Request(c, v, e) in s.net
    requires s.nodes[v].currentEpoch <= e && s.nodes[v].lastVoteEpoch != e
    ensures var st := Deliver(Request(c, v, e), false);
            && Enabled(s, st) && Agreed(s, st, Voters(n)) && !EarlyVote(s, st)
            && var t := Apply(s, st);
            && Stage(t, n) && t.wins == s.wins && t.stale == s.stale
            && t.nodes == s.nodes[v := s.nodes[v].(currentEpoch := e, lastVoteEpoch := e)]
            && Ballot(v, c, e) in t.net && (forall x :: x in s.net && x != Request(c, v, e) ==> x in t.net)
  {
    hide Receive, Voted, ViewOk, Scene, Header;
    VoterNode(s.nodes[v], n, v, c, e);
    ApplyShape(s, Deliver(Request(c, v, e), false));
  }

  lemma CountsVote(s: System, n: nat, v: Id, c: Id, e: nat)
    requires Stage(s, n) && v < n && Candidate(n, c) && Ballot(v, c, e) in s.net
    requires s.nodes[c].authEpoch <= e <= s.nodes[c].currentEpoch
    ensures var st := Deliver(Ballot(v, c, e), false);
            && Enabled(s, st) && Agreed(s, st, Voters(n)) && (EarlyVote(s, st) <==> !s.nodes[c].authSent)
            && var t := Apply(s, st);
            && Stage(t, n) && t.wins == s.wins
            && t.stale == s.stale[c := s.stale[c] + if s.nodes[c].authSent then 0 else 1]
            && t.nodes == s.nodes[c := s.nodes[c].(authCount := s.nodes[c].authCount + 1)]
            && (forall x :: x in s.net && x != Ballot(v, c, e) ==> x in t.net)
  {
    hide Receive, Voted, Counted, ViewOk, Scene, Header, Zeros, MsgOk;
    CounterNode(s.nodes[c], n, v, c, e);
    ApplyShape(s, Deliver(Ballot(v, c, e), false));
  }

  lemma Hears(s: System, n: nat, c: Id, d: Id, e: nat)
    requires Stage(s, n) && Candidate(n, c) && Candidate(n, d) && Request(c, d, e) in s.net
    ensures var st := Deliver(Request(c, d, e), false);
            && Enabled(s, st) && Agreed(s, st, Voters(n)) && !EarlyVote(s, st)
            && var t := Apply(s, st);
            && Stage(t, n) && t.wins == s.wins && t.stale == s.stale
            && t.nodes == s.nodes[d := s.nodes[d].(currentEpoch := Max(s.nodes[d].currentEpoch, e))]
            && (forall x :: x in s.net && x != Request(c, d, e) ==> x in t.net)
  {
    hide Receive, Voted, Counted, ViewOk, Scene, Header;
    HearerNode(s.nodes[d], n, c, d, e);
    ApplyShape(s, Deliver(Request(c, d, e), false));
  }

  lemma Reschedules(s: System, n: nat, c: Id)
    requires Stage(s, n) && Candidate(n, c)
    ensures Enabled(s, Schedule(c, true)) && Agreed(s, Schedule(c, true), Voters(n))
    ensures !EarlyVote(s, Schedule(c, true))
    ensures var t := Apply(s, Schedule(c, true));
            && Stage(t, n) && t.wins == s.wins && t.stale == s.stale[c := 0]
            && t.nodes == s.nodes[c := s.nodes[c].(authCount := 0, authSent := false)]
            && (forall x :: x in s.net ==> x in t.net)
  {
    hide CanFailOver, ViewOk, Scene;
    AskerNode(s.nodes[c], n, c);
    ApplyShape(s, Schedule(c, true));
  }

  /** Enough votes win; only the winner's own state is touched. */
  lemma Wins(s: System, n: nat, c: Id)
    requires WellFormed(s) && |s.nodes| == n + 2 && Candidate(n, c) && Placed(s.nodes[c], n)
    requires s.nodes[c].authSent && n / 2 + 1 <= s.nodes[c].authCount
    ensures Enabled(s, CheckQuorum(c, true)) && Agreed(s, CheckQuorum(c, true), Voters(n))
    ensures !EarlyVote(s, CheckQuorum(c, true))
    ensures var t := Apply(s, CheckQuorum(c, true));
            && WellFormed(t) && |t.nodes| == n + 2 && t.stale == s.stale
            && (forall j :: 0 <= j < n + 2 && j != c ==> t.nodes[j] == s.nodes[j])
            && t.wins == s.wins + {Win(s.nodes[c].authEpoch, c, s.nodes[c].authCount, s.backers[c], s.stale[c])}
  {
    hide CanFailOver, ViewOk, TakeOver;
    AskerNode(s.nodes[c], n, c);
    ApplyShape(s, CheckQuorum(c, true));
  }

  // ----- many steps -----

  function Requests(c: Id, lo: nat, hi: nat, e: nat): set<Msg> {
    set v: Id | lo <= v < hi :: Request(c, v, e)
  }

  /** The state once voters lo to hi - 1 have answered the request of c. */
  ghost predicate HaveVoted(s: System, t: System, c: Id, e: nat, lo: nat, hi: nat) {
    && |t.nodes| == |s.nodes| && t.wins == s.wins && t.stale == s.stale
    && (forall i :: 0 <= i < |s.nodes| && !(lo <= i < hi) ==> t.nodes[i] == s.nodes[i])
    && (forall i :: 0 <= i < |s.nodes| && lo <= i < hi ==> t.nodes[i].currentEpoch == e == t.nodes[i].lastVoteEpoch)
    && (forall v: Id :: lo <= v < hi ==> Ballot(v, c, e) in t.net)
    && (forall x :: x in s.net && x !in Requests(c, lo, hi, e) ==> x in t.net)
  }

  lemma OneMoreVoted(s: System, r: System, t: System, c: Id, e: nat, lo: nat, v: nat)
    requires HaveVoted(s, r, c, e, lo, v) && lo <= v < |s.nodes| && t.wins == r.wins && t.stale == r.stale
    requires t.nodes == r.nodes[v := r.nodes[v].(currentEpoch := e, lastVoteEpoch := e)] && Ballot(v, c, e) in t.net
    requires forall x :: x in r.net && x != Request(c, v, e) ==> x in t.net
    ensures HaveVoted(s, t, c, e, lo, v + 1)
  {
    assert Request(c, v, e) in Requests(c, lo, v + 1, e);
    assert Requests(c, lo, v, e) <= Requests(c, lo, v + 1, e);
  }

  ghost predicate CanVote(s: System, c: Id, e: nat, v: Id) {
    && v < |s.nodes| && s.nodes[v].currentEpoch <= e && s.nodes[v].lastVoteEpoch != e && Request(c, v, e) in s.net
  }

  /** Voters lo to hi - 1 answer the request of c. */
  lemma {:induction false} AllVote(states: seq<System>, steps: seq<Step>, n: nat, early: set<nat>, c: Id, e: nat,
      lo: nat, hi: nat) returns (states': seq<System>, steps': seq<Step>)
    requires |states| == |steps| + 1 && Story(states, steps, n, early) && Stage(states[|steps|], n)
    requires lo <= hi <= n && Candidate(n, c) && forall v :: lo <= v < hi ==> CanVote(states[|steps|], c, e, v)
    ensures |states'| == |steps'| + 1 && Story(states', steps', n, early) && Stage(states'[|steps'|], n)
    ensures HaveVoted(states[|steps|], states'[|steps'|], c, e, lo, hi)
    decreases hi
  {
    hide Story, Apply, Agreed, EarlyVote, Enabled, Placed;
    states', steps' := states, steps;
    if lo < hi {
      var v := hi - 1;
      states', steps' := AllVote(states, steps, n, early, c, e, lo, v);
      var r := states'[|steps'|];
      assert CanVote(states[|steps|], c, e, v);
      Votes(r, n, v, c, e);
      states', steps' := Extend(states', steps', n, early, Deliver(Request(c, v, e), false));
      OneMoreVoted(states[|steps|], r, states'[|steps'|], c, e, lo, v);
    }
  }

  /** The state once c has counted the votes of voters lo to hi - 1. */
  ghost predicate HasCounted(s: System, t: System, c: Id, e: nat, lo: nat, hi: nat) {
    && lo <= hi && c < |s.nodes| && c < |s.stale| && t.wins == s.wins
    && t.nodes == s.nodes[c := s.nodes[c].(authCount := s.nodes[c].authCount + hi - lo)]
    && t.stale == s.stale[c := s.stale[c] + if s.nodes[c].authSent then 0 else hi - lo]
    && (forall x :: x in s.net && x.kind != AuthAck ==> x in t.net)
    && (forall v: Id :: hi <= v && Ballot(v, c, e) in s.net ==> Ballot(v, c, e) in t.net)
  }

  lemma NoneCounted(s: System, n: nat, c: Id, e: nat, lo: nat)
    requires Stage(s, n) && Candidate(n, c)
    ensures HasCounted(s, s, c, e, lo, lo)
  {
    hide Placed;
    assert s.nodes[c := s.nodes[c]] == s.nodes && s.stale[c := s.stale[c]] == s.stale;
  }

  lemma StillCounts(s: System, t: System, c: Id, e: nat, lo: nat, v: Id)
    requires HasCounted(s, t, c, e, lo, v) && Ballot(v, c, e) in s.net
    ensures Ballot(v, c, e) in t.net && c < |s.nodes| == |t.nodes|
    ensures t.nodes[c] == s.nodes[c].(authCount := s.nodes[c].authCount + v - lo)
  {
  }

  lemma OneMoreCounted(s: System, r: System, t: System, c: Id, e: nat, lo: nat, v: nat)
    requires HasCounted(s, r, c, e, lo, v) && t.wins == r.wins
    requires t.nodes == r.nodes[c := r.nodes[c].(authCount := r.nodes[c].authCount + 1)]
    requires t.stale == r.stale[c := r.stale[c] + if r.nodes[c].authSent then 0 else 1]
    requires forall x :: x in r.net && x != Ballot(v, c, e) ==> x in t.net
    ensures HasCounted(s, t, c, e, lo, v + 1)
  {
  }

  /** c counts the votes of voters lo to hi - 1, too soon if it has not asked. */
  lemma {:induction false} AllCounted(states: seq<System>, steps: seq<Step>, n: nat, early: set<nat>, c: Id, e: nat,
      lo: nat, hi: nat) returns (states': seq<System>, steps': seq<Step>, early': set<nat>)
    requires |states| == |steps| + 1 && Story(states, steps, n, early) && Stage(states[|steps|], n)
    requires lo <= hi <= n && Candidate(n, c)
    requires forall v: Id :: lo <= v < hi ==> Ballot(v, c, e) in states[|steps|].net
    requires states[|steps|].nodes[c].authEpoch <= e <= states[|steps|].nodes[c].currentEpoch
    ensures |states'| == |steps'| + 1 && Story(states', steps', n, early') && Stage(states'[|steps'|], n)
    ensures HasCounted(states[|steps|], states'[|steps'|], c, e, lo, hi)
    ensures |early'| == |early| + if states[|steps|].nodes[c].authSent then 0 else hi - lo
    decreases hi
  {
    hide Story, Apply, Agreed, EarlyVote, Enabled, Placed, Noted, HasCounted;
    states', steps', early' := states, steps, early;
    if lo == hi {
      NoneCounted(states[|steps|], n, c, e, lo);
    } else {
      var v := hi - 1;
      states', steps', early' := AllCounted(states, steps, n, early, c, e, lo, v);
      var r, k := states'[|steps'|], |steps'|;
      StillCounts(states[|steps|], r, c, e, lo, v);
      CountsVote(r, n, v, c, e);
      states', steps' := Extend(states', steps', n, early', Deliver(Ballot(v, c, e), false));
      early' := Noted(early', r, Deliver(Ballot(v, c, e), false), k);
      OneMoreCounted(states[|steps|], r, states'[|steps'|], c, e, lo, v);
    }
  }

  // ----- the run -----

  /** How many votes are counted too soon, and how many of the votes of epoch 2 go to the first candidate. */
  function Early(n: nat): nat {
    2 - n % 2
  }

  function Share(n: nat): int {
    n / 2 + 1 - Early(n)
  }

  lemma SharesMeetQuorum(n: nat)
    requires 0 < n
    ensures 1 <= Early(n) <= n && 0 <= Share(n) <= n
    ensures Early(n) + Share(n) == n / 2 + 1 == n - Share(n)
  {
  }

  /** Voters from lo on have not reached epoch e. */
  ghost predicate Behind(s: System, n: nat, lo: nat, e: nat) {
    n <= |s.nodes| && forall v :: lo <= v < n ==> s.nodes[v].currentEpoch < e && s.nodes[v].lastVoteEpoch < e
  }

  /** The second candidate knows epoch 1 and has not asked. */
  ghost predicate RivalWaits(s: System, n: nat) {
    |s.nodes| == n + 2 && var b := s.nodes[n + 1]; b.currentEpoch == 1 && !b.authSent && b.authCount == 0
  }

  /** Candidate c has asked in epoch e and counts k votes. */
  ghost predicate Counting(s: System, c: Id, e: nat, k: nat) {
    c < |s.nodes| && var x := s.nodes[c]; x.currentEpoch == e == x.authEpoch && x.authSent && x.authCount == k
  }

  lemma Opening(n: nat) returns (states: seq<System>, steps: seq<Step>)
    requires 0 < n
    ensures |states| == |steps| + 1 && Story(states, steps, n, {}) && Stage(states[|steps|], n)
    ensures states[|steps|].nodes == seq(n + 2, _ => Node(0, 0, Zeros(n + 2), 0, 0, false, Scene(n)))
    ensures states[|steps|].stale == Zeros(n + 2)
  {
    hide Scene, ViewOk, Zeros;
    SceneOk(n);
    var nodes := seq(n + 2, _ => Node(0, 0, Zeros(n + 2), 0, 0, false, Scene(n)));
    ZerosAre(n + 2);
    states, steps := [System(nodes, multiset{}, {}, seq(n + 2, _ => {}), Zeros(n + 2), {})], [];
  }

  /** The first candidate has asked in epoch 1, which the second has heard. */
  lemma Asked(n: nat) returns (states: seq<System>, steps: seq<Step>)
    requires 0 < n
    ensures |states| == |steps| + 1 && Story(states, steps, n, {}) && Stage(states[|steps|], n)
    ensures var s := states[|steps|];
            && Counting(s, n, 1, 0) && RivalWaits(s, n) && s.stale == Zeros(n + 2)
            && forall v: Id :: v < n ==> s.nodes[v].currentEpoch == 0 == s.nodes[v].lastVoteEpoch && CanVote(s, n, 1, v)
  {
    hide Story, Apply, Agreed, EarlyVote, Enabled, Stage;
    states, steps := Opening(n);
    Asks(states[|steps|], n, n);
    states, steps := Extend(states, steps, n, {}, RequestVotes(n, true));
    Hears(states[|steps|], n, n, n + 1, 1);
    states, steps := Extend(states, steps, n, {}, Deliver(Request(n, n + 1, 1), false));
  }

  /** It resets its count, counts votes of epoch 1 and only then asks in epoch 2. */
  lemma CountedTooSoon(n: nat) returns (states: seq<System>, steps: seq<Step>, early: set<nat>)
    requires 0 < n
    ensures |states| == |steps| + 1 && Story(states, steps, n, early) && Stage(states[|steps|], n)
    ensures |early| == Early(n)
    ensures var s := states[|steps|];
            && Counting(s, n, 2, Early(n)) && RivalWaits(s, n) && s.stale == Zeros(n + 2)[n := Early(n)]
            && Behind(s, n, 0, 2) && forall v: Id :: v < n ==> CanVote(s, n, 2, v)
  {
    hide Story, Apply, Agreed, EarlyVote, Enabled, Stage, Early, Share;
    SharesMeetQuorum(n);
    states, steps := Asked(n);
    states, steps := AllVote(states, steps, n, {}, n, 1, 0, Early(n));
    Reschedules(states[|steps|], n, n);
    states, steps := Extend(states, steps, n, {}, Schedule(n, true));
    states, steps, early := AllCounted(states, steps, n, {}, n, 1, 0, Early(n));
    Asks(states[|steps|], n, n);
    states, steps := Extend(states, steps, n, early, RequestVotes(n, true));
  }

  /** A share of the voters votes for it. */
  lemma FirstHasQuorum(n: nat) returns (states: seq<System>, steps: seq<Step>, early: set<nat>)
    requires 0 < n
    ensures |states| == |steps| + 1 && Story(states, steps, n, early) && Stage(states[|steps|], n)
    ensures |early| == Early(n) && 0 <= Share(n) <= n
    ensures var s := states[|steps|];
            && Counting(s, n, 2, n / 2 + 1) && RivalWaits(s, n) && s.stale == Zeros(n + 2)[n := Early(n)]
            && Behind(s, n, Share(n), 2)
  {
    hide Story, Apply, Agreed, EarlyVote, Enabled, Stage, Early, Share;
    SharesMeetQuorum(n);
    states, steps, early := CountedTooSoon(n);
    states, steps := AllVote(states, steps, n, early, n, 2, 0, Share(n));
    states, steps, early := AllCounted(states, steps, n, early, n, 2, 0, Share(n));
  }

  /** The others vote for the second candidate, which asks in the same epoch. */
  lemma BothHaveQuorum(n: nat) returns (states: seq<System>, steps: seq<Step>, early: set<nat>)
    requires 0 < n
    ensures |states| == |steps| + 1 && Story(states, steps, n, early) && Stage(states[|steps|], n)
    ensures |early| == Early(n)
    ensures var s := states[|steps|];
            && Counting(s, n, 2, n / 2 + 1) && Counting(s, n + 1, 2, n / 2 + 1)
            && s.stale[n] == Early(n) && s.stale[n + 1] == 0
  {
    hide Story, Apply, Agreed, EarlyVote, Enabled, Stage, Early, Share;
    SharesMeetQuorum(n);
    states, steps, early := FirstHasQuorum(n);
    Asks(states[|steps|], n, n + 1);
    states, steps := Extend(states, steps, n, early, RequestVotes(n + 1, true));
    states, steps := AllVote(states, steps, n, early, n + 1, 2, Share(n), n);
    states, steps, early := AllCounted(states, steps, n, early, n + 1, 2, Share(n), n);
  }

  /** For every number n of agreed voters there is a run in which two slaves pass the quorum check of epoch 2. As many
      steps as the bound demands count a vote too soon; one of the wins is genuine and the other rests on them. */
  lemma StaleVotesGiveTwoWinners(n: nat)
    returns (states: seq<System>, steps: seq<Step>, early: set<nat>, w: Win, x: Win)
    requires 0 < n
    ensures AgreedRun(states, steps, Voters(n)) && |Voters(n)(2)| == n
    ensures |early| == 2 - n % 2 && forall k: nat :: EarlyAt(states, steps, k) <==> k in early
    ensures w in states[|steps|].wins && x in states[|steps|].wins && w.epoch == x.epoch == 2 && w.winner != x.winner
    ensures w.stale == 0 && x.stale == 2 - n % 2
  {
    hide Agreed, EarlyVote, EarlyAt, AgreedRun, Apply;
    states, steps, early := BothHaveQuorum(n);
    var s := states[|steps|];
    Wins(s, n, n + 1);
    states, steps := Extend(states, steps, n, early, CheckQuorum(n + 1, true));
    w := Win(2, n + 1, n / 2 + 1, s.backers[n + 1], 0);
    s := states[|steps|];
    Wins(s, n, n);
    states, steps := Extend(states, steps, n, early, CheckQuorum(n, true));
    x := Win(2, n, n / 2 + 1, s.backers[n], Early(n));
  }

  /** Two wins of one epoch with n agreed voters. */
  ghost predicate TwoWins(states: seq<System>, steps: seq<Step>, V: nat -> set<Id>, w: Win, x: Win, n: nat) {
    && AgreedRun(states, steps, V) && w in states[|steps|].wins && x in states[|steps|].wins
    && w.epoch == x.epoch && |V(w.epoch)| == n
  }

  /** Fewer than b early votes leave one winner, in every run with n agreed voters. */
  ghost predicate SafeBelow(n: nat, b: nat) {
    forall states, steps, V, w, x {:trigger TwoWins(states, steps, V, w, x, n)} ::
      TwoWins(states, steps, V, w, x, n) && w.stale + x.stale < b ==> w.winner == x.winner
  }

  /** The bound is exact for every number of voters: one early vote for an odd number, two for an even number. */
  lemma BoundIsExact(n: nat, b: nat)
    requires 0 < n
    ensures SafeBelow(n, b) <==> b <= 2 - n % 2
  {
    hide AgreedRun;
    if b <= 2 - n % 2 {
      forall states, steps, V, w, x | TwoWins(states, steps, V, w, x, n) && w.stale + x.stale < b
        ensures w.winner == x.winner
      {
        OneWinnerPerEpoch(states, steps, V, w, x);
      }
    } else {
      var states, steps, early, w, x := StaleVotesGiveTwoWinners(n);
      assert TwoWins(states, steps, Voters(n), w, x, n);
    }
  }
}
