/** Failover elections over every run of the cluster bus: a master votes once per epoch, and under
    an agreed voter set at most one candidate wins an epoch. */
module ClusterVotes {
  import opened ClusterTypes
  import opened Collections
  import opened ClusterBus
  import opened ClusterEpochs

  /** One vote per voter and epoch, none beyond the voter's lastVoteEpoch. */
  ghost predicate VotesOnce(s: System)
    requires WellFormed(s)
  {
    && (forall v :: v in s.granted ==> v.epoch <= s.nodes[v.voter].lastVoteEpoch)
    && (forall v, w :: v in s.granted && w in s.granted && v.voter == w.voter && v.epoch == w.epoch ==> v == w)
  }

  /** A grant is for the request's own epoch, which lies beyond every earlier vote of this voter. */
  lemma GrantEpoch(n: Node, m: Msg, tooSoon: bool)
    requires NodeOk(n, |n.config|) && MsgOk(m, |n.config|) && NodeBounded(n) && Voted(n, m, tooSoon)
    ensures var n' := Receive(n, m.dst, m, tooSoon);
            n'.currentEpoch == m.currentEpoch == n'.lastVoteEpoch && n.lastVoteEpoch < n'.lastVoteEpoch
  {
  }

  lemma ApplyVotesOnce(s: System, st: Step)
    requires WellFormed(s) && Enabled(s, st) && Bounded(s) && VotesOnce(s)
    ensures WellFormed(Apply(s, st)) && VotesOnce(Apply(s, st))
  {
    hide Receive, Sent;
    ApplyShape(s, st);
    StepOk(s, st);
    var i := Actor(st);
    AfterBounded(s.nodes[i], i, st);
    if st.Deliver? && Voted(s.nodes[i], st.m, st.tooSoon) {
      GrantEpoch(s.nodes[i], st.m, st.tooSoon);
    }
  }

  /** Over any run, no master grants two votes in one epoch. */
  lemma {:induction false} VoteOncePerEpoch(states: seq<System>, steps: seq<Step>)
    requires Run(states, steps)
    ensures forall k :: 0 <= k < |states| ==> WellFormed(states[k]) && VotesOnce(states[k])
    decreases |steps|
  {
    EpochsBounded(states, steps);
    if |steps| != 0 {
      var n := |steps| - 1;
      VoteOncePerEpoch(states[..n + 1], steps[..n]);
      assert VotesOnce(states[..n + 1][n]);
      ApplyVotesOnce(states[n], steps[n]);
      forall k | 0 <= k < |states| ensures WellFormed(states[k]) && VotesOnce(states[k]) {
        if k <= n { assert states[k] == states[..n + 1][k]; }
      }
    }
  }

  ghost predicate AckFor(a: Msg, v: Id, epoch: nat, c: Id) {
    a.kind == AuthAck && a.src == v && a.currentEpoch == epoch && a.dst == c
  }

  ghost predicate RequestsOk(s: System)
    requires WellFormed(s)
  {
    forall m :: m in s.net && m.kind == AuthRequest ==> m.currentEpoch <= s.nodes[m.src].authEpoch
  }

  /** Every vote in flight was granted, for no later attempt than the current one, and is there once. */
  ghost predicate AcksOk(s: System)
    requires WellFormed(s)
  {
    && (forall a :: a in s.net && a.kind == AuthAck ==>
          && Vote(a.src, a.currentEpoch, a.dst) in s.granted
          && a.currentEpoch <= s.nodes[a.dst].authEpoch
          && s.net[a] == 1)
    && (forall a, b :: a in s.net && b in s.net && SameBallot(a, b) ==> a == b)
  }

  /** Two votes of one voter in one epoch. */
  ghost predicate SameBallot(a: Msg, b: Msg) {
    a.kind == AuthAck == b.kind && a.src == b.src && a.currentEpoch == b.currentEpoch
  }

  /** The count of a node is the number of its backers, who each voted for it in its epoch, plus the votes
      it counted before it asked for any. */
  ghost predicate CandidateOk(s: System, c: Id)
    requires WellFormed(s) && c < |s.nodes|
  {
    var n := s.nodes[c];
    && n.authCount == |s.backers[c]| + s.stale[c]
    && (!n.authSent ==> s.backers[c] == {})
    && forall v :: v in s.backers[c] ==>
                     && Vote(v, n.authEpoch, c) in s.granted
                     && forall a :: a in s.net ==> !AckFor(a, v, n.authEpoch, c)
  }

  /** The count that won is the number of its backers plus the early votes. */
  ghost predicate WinOk(s: System, w: Win) {
    && w.count == |w.backers| + w.stale
    && forall v :: v in w.backers ==> Vote(v, w.epoch, w.winner) in s.granted
  }

  ghost predicate ElectionOk(s: System)
    requires WellFormed(s)
  {
    && RequestsOk(s) && AcksOk(s)
    && (forall c :: 0 <= c < |s.nodes| ==> CandidateOk(s, c))
    && (forall w :: w in s.wins ==> WinOk(s, w))
  }

  lemma ApplyRequests(s: System, st: Step)
    requires WellFormed(s) && Enabled(s, st) && Bounded(s) && RequestsOk(s) && WellFormed(Apply(s, st))
    ensures RequestsOk(Apply(s, st))
  {
    hide Receive;
    var i := Actor(st);
    AfterShape(s.nodes[i], i, st);
    AfterBounded(s.nodes[i], i, st);
    SentBounded(After(s.nodes[i], i, st), i, st, st.Deliver? && Voted(s.nodes[i], st.m, st.tooSoon));
  }

  lemma SentAck(n: Node, me: Id, st: Step, voted: bool, a: Msg)
    requires NodeOk(n, |n.config|) && me < |n.config|
    requires st.SendUpdate? ==> st.about < |n.config|
    requires a in Sent(n, me, st, voted) && a.kind == AuthAck
    ensures st.Deliver? && voted && AckFor(a, me, n.currentEpoch, st.m.src)
    ensures Sent(n, me, st, voted) == {a}
  {
  }

  ghost predicate NewVote(s: System, st: Step)
    requires WellFormed(s) && Enabled(s, st)
  {
    st.Deliver? && Voted(s.nodes[st.m.dst], st.m, st.tooSoon)
  }

  /** A vote in flight after a step is the one just granted, or was in flight before and was not
      the packet taken off the bus. */
  lemma AckOrigin(s: System, st: Step, a: Msg)
    requires WellFormed(s) && Enabled(s, st) && Bounded(s) && VotesOnce(s) && AcksOk(s)
    requires a in Apply(s, st).net && a.kind == AuthAck
    ensures Apply(s, st).net[a] == 1
    ensures var n' := Apply(s, st).nodes[Actor(st)];
            || (NewVote(s, st) && AckFor(a, st.m.dst, n'.currentEpoch, st.m.src) && a !in s.net)
            || (a in s.net && a !in Taken(st) && a.currentEpoch <= s.nodes[a.src].lastVoteEpoch)
  {
    var i := Actor(st);
    var n := s.nodes[i];
    AfterShape(n, i, st);
    var n' := After(n, i, st);
    var sent := Sent(n', i, st, NewVote(s, st));
    if NewVote(s, st) { GrantEpoch(n, st.m, st.tooSoon); }
    if a in sent {
      SentAck(n', i, st, NewVote(s, st), a);
      assert a in s.net ==> Vote(a.src, a.currentEpoch, a.dst) in s.granted;
    }
  }

  /** How a step changes the acting node's attempt. */
  lemma AttemptAfter(n: Node, me: Id, st: Step)
    requires NodeOk(n, |n.config|) && me < |n.config|
    requires st.Deliver? ==> MsgOk(st.m, |n.config|)
    ensures var n' := After(n, me, st);
            if st.Schedule? then n'.authCount == 0 && !n'.authSent && n'.authEpoch == n.authEpoch
            else if st.RequestVotes? then n'.authCount == n.authCount && n'.authSent
            else
              && n'.authCount == n.authCount + (if st.Deliver? && Counted(n, st.m) then 1 else 0)
              && n'.authSent == n.authSent && n'.authEpoch == n.authEpoch
  {
  }

  /** Only its own Schedule, RequestVotes and counted votes change a node's attempt. */
  lemma AttemptKept(s: System, st: Step, c: Id)
    requires WellFormed(s) && Enabled(s, st) && c < |s.nodes|
    ensures s.granted <= Apply(s, st).granted
    ensures var n, t := s.nodes[c], Apply(s, st);
            var n' := t.nodes[c];
            if c == Actor(st) && st.Schedule? then
              && n'.authCount == 0 && !n'.authSent && n'.authEpoch == n.authEpoch
              && t.backers[c] == {} && t.stale[c] == 0
            else if c == Actor(st) && st.RequestVotes? then
              && n'.authCount == n.authCount && n'.authSent && !n.authSent
              && t.backers[c] == s.backers[c] && t.stale[c] == s.stale[c]
            else if c == Actor(st) && st.Deliver? && Counted(n, st.m) then
              && n'.authCount == n.authCount + 1 && n'.authSent == n.authSent && n'.authEpoch == n.authEpoch
              && t.backers[c] == s.backers[c] + (if n.authSent then {st.m.src} else {})
              && t.stale[c] == s.stale[c] + (if n.authSent then 0 else 1)
            else
              && n'.authCount == n.authCount && n'.authSent == n.authSent && n'.authEpoch == n.authEpoch
              && t.backers[c] == s.backers[c] && t.stale[c] == s.stale[c]
  {
    hide Receive, After, Sent, Voted, Counted, ViewOk;
    StepOk(s, st);
    AttemptAfter(s.nodes[Actor(st)], Actor(st), st);
  }

  lemma ApplyAck(s: System, st: Step, a: Msg)
    requires WellFormed(s) && Enabled(s, st) && Bounded(s) && VotesOnce(s) && RequestsOk(s) && AcksOk(s)
    requires WellFormed(Apply(s, st)) && a in Apply(s, st).net && a.kind == AuthAck
    ensures Vote(a.src, a.currentEpoch, a.dst) in Apply(s, st).granted
    ensures a.currentEpoch <= Apply(s, st).nodes[a.dst].authEpoch
  {
    AckOrigin(s, st, a);
    AttemptKept(s, st, a.dst);
    if NewVote(s, st) { GrantEpoch(s.nodes[st.m.dst], st.m, st.tooSoon); }
  }

  lemma ApplyAcks(s: System, st: Step)
    requires WellFormed(s) && Enabled(s, st) && Bounded(s) && VotesOnce(s) && RequestsOk(s) && AcksOk(s)
    requires WellFormed(Apply(s, st))
    ensures AcksOk(Apply(s, st))
  {
    var t := Apply(s, st);
    forall a | a in t.net && a.kind == AuthAck
      ensures Vote(a.src, a.currentEpoch, a.dst) in t.granted && a.currentEpoch <= t.nodes[a.dst].authEpoch &&
              t.net[a] == 1
    {
      AckOrigin(s, st, a);
      ApplyAck(s, st, a);
    }
    forall a, b | a in t.net && b in t.net && SameBallot(a, b)
      ensures a == b
    {
      SameAck(s, st, a, b);
    }
  }

  lemma SameAck(s: System, st: Step, a: Msg, b: Msg)
    requires WellFormed(s) && Enabled(s, st) && Bounded(s) && VotesOnce(s) && AcksOk(s)
    requires a in Apply(s, st).net && b in Apply(s, st).net && SameBallot(a, b)
    ensures a == b
  {
    hide Receive, Voted, Counted, ViewOk;
    AckOrigin(s, st, a);
    AckOrigin(s, st, b);
    if NewVote(s, st) {
      var n := s.nodes[st.m.dst];
      GrantEpoch(n, st.m, st.tooSoon);
      AfterShape(n, st.m.dst, st);
      var n' := After(n, st.m.dst, st);
      var sent := Sent(n', st.m.dst, st, true);
      assert a !in s.net ==> a in sent;
      assert b !in s.net ==> b in sent;
      if a in sent { SentAck(n', st.m.dst, st, true, a); }
    }
  }

  lemma NewVoteIsFresh(s: System, st: Step)
    requires WellFormed(s) && Enabled(s, st) && Bounded(s) && NewVote(s, st)
    ensures s.nodes[st.m.dst].lastVoteEpoch < Apply(s, st).nodes[st.m.dst].currentEpoch
    ensures !Counted(s.nodes[st.m.dst], st.m)
  {
    GrantEpoch(s.nodes[st.m.dst], st.m, st.tooSoon);
  }

  lemma CountedIsCurrent(n: Node, m: Msg)
    requires NodeOk(n, |n.config|) && MsgOk(m, |n.config|) && Counted(n, m)
    ensures m.kind == AuthAck && n.authEpoch <= m.currentEpoch
  {
  }

  /** A vote still in flight is not that of a voter already counted, nor of the one counted just now. */
  lemma OldAck(s: System, st: Step, c: Id, v: Id, a: Msg)
    requires WellFormed(s) && Enabled(s, st) && AcksOk(s) && c < |s.nodes| && CandidateOk(s, c)
    requires a in s.net && a !in Taken(st)
    requires v in s.backers[c] || (st.Deliver? && c == st.m.dst && Counted(s.nodes[c], st.m) && v == st.m.src)
    ensures !AckFor(a, v, s.nodes[c].authEpoch, c)
  {
    if v !in s.backers[c] {
      CountedIsCurrent(s.nodes[c], st.m);
      hide Counted;
    }
  }

  /** A vote granted just now is not that of a voter already counted. */
  lemma NewAck(s: System, st: Step, c: Id, v: Id)
    requires WellFormed(s) && Enabled(s, st) && Bounded(s) && VotesOnce(s) && NewVote(s, st)
    requires c < |s.nodes| && CandidateOk(s, c) && v in s.backers[c] && v == st.m.dst
    ensures s.nodes[c].authEpoch < Apply(s, st).nodes[v].currentEpoch
  {
    NewVoteIsFresh(s, st);
    hide Apply, NewVote;
    assert Vote(v, s.nodes[c].authEpoch, c) in s.granted;
  }

  lemma IdleHasNoBackers(s: System, c: Id)
    requires WellFormed(s) && c < |s.nodes| && CandidateOk(s, c) && !s.nodes[c].authSent
    ensures s.backers[c] == {}
  {
  }

  /** Once its vote is counted, a voter has no other vote for that attempt in flight. */
  lemma NoSecondAck(s: System, st: Step, c: Id, v: Id, a: Msg)
    requires WellFormed(s) && Enabled(s, st) && Bounded(s) && VotesOnce(s) && AcksOk(s)
    requires c < |s.nodes| && CandidateOk(s, c)
    requires a in Apply(s, st).net && v in Apply(s, st).backers[c]
    ensures !AckFor(a, v, Apply(s, st).nodes[c].authEpoch, c)
  {
    AttemptKept(s, st, c);
    hide Receive, After, Sent, Apply, Counted, Voted, CandidateOk, AcksOk, VotesOnce;
    if !s.nodes[c].authSent { IdleHasNoBackers(s, c); }
    if AckFor(a, v, Apply(s, st).nodes[c].authEpoch, c) {
      AckOrigin(s, st, a);
      if a in s.net && a !in Taken(st) {
        OldAck(s, st, c, v, a);
      } else {
        NewVoteIsFresh(s, st);
        NewAck(s, st, c, v);
      }
    }
  }

  lemma CountedIsNew(s: System, st: Step)
    requires WellFormed(s) && Enabled(s, st) && AcksOk(s) && st.Deliver? && Counted(s.nodes[st.m.dst], st.m)
    requires CandidateOk(s, st.m.dst)
    ensures st.m.src !in s.backers[st.m.dst]
    ensures Vote(st.m.src, s.nodes[st.m.dst].authEpoch, st.m.dst) in s.granted
  {
    CountedIsCurrent(s.nodes[st.m.dst], st.m);
    assert AckFor(st.m, st.m.src, s.nodes[st.m.dst].authEpoch, st.m.dst);
  }

  lemma CountKept(s: System, st: Step, c: Id)
    requires WellFormed(s) && Enabled(s, st) && AcksOk(s) && c < |s.nodes| && CandidateOk(s, c)
    ensures var t := Apply(s, st);
            && c < |t.nodes| && c < |t.backers| && c < |t.stale|
            && t.nodes[c].authCount == |t.backers[c]| + t.stale[c]
            && (!t.nodes[c].authSent ==> t.backers[c] == {})
            && forall v :: v in t.backers[c] ==> Vote(v, t.nodes[c].authEpoch, c) in t.granted
  {
    AttemptKept(s, st, c);
    if c == Actor(st) && st.Deliver? && Counted(s.nodes[c], st.m) { CountedIsNew(s, st); }
  }

  lemma ApplyCandidate(s: System, st: Step, c: Id)
    requires WellFormed(s) && Enabled(s, st) && Bounded(s) && VotesOnce(s) && AcksOk(s)
    requires WellFormed(Apply(s, st)) && c < |s.nodes| && CandidateOk(s, c)
    ensures c < |Apply(s, st).nodes| && CandidateOk(Apply(s, st), c)
  {
    var t := Apply(s, st);
    CountKept(s, st, c);
    hide Receive, After, Sent, Apply;
    forall v, a | v in t.backers[c] && a in t.net ensures !AckFor(a, v, t.nodes[c].authEpoch, c) {
      NoSecondAck(s, st, c, v, a);
    }
  }

  lemma ApplyWins(s: System, st: Step)
    requires WellFormed(s) && Enabled(s, st) && WellFormed(Apply(s, st)) && ElectionOk(s)
    ensures forall w :: w in Apply(s, st).wins ==> WinOk(Apply(s, st), w)
  {
    var t := Apply(s, st);
    AttemptKept(s, st, Actor(st));
    forall w | w in t.wins ensures WinOk(t, w) {
      if w in s.wins {
        assert WinOk(s, w);
      } else {
        assert CandidateOk(s, Actor(st));
      }
    }
  }

  lemma ApplyElection(s: System, st: Step)
    requires WellFormed(s) && Enabled(s, st) && Bounded(s) && VotesOnce(s) && ElectionOk(s)
    ensures WellFormed(Apply(s, st)) && ElectionOk(Apply(s, st))
  {
    ApplyShape(s, st);
    ApplyRequests(s, st);
    ApplyAcks(s, st);
    forall c | 0 <= c < |s.nodes| ensures CandidateOk(Apply(s, st), c) { ApplyCandidate(s, st, c); }
    ApplyWins(s, st);
  }

  /** The law of the count, in every state of every run: what a node has counted is the number of distinct
      voters that voted for it in its epoch, plus the votes it counted before it asked for any; and so for
      every count that won. */
  lemma {:induction false} ElectionsOk(states: seq<System>, steps: seq<Step>)
    requires Run(states, steps)
    ensures var s := states[|steps|]; WellFormed(s) && VotesOnce(s) && ElectionOk(s)
    decreases |steps|
  {
    VoteOncePerEpoch(states, steps);
    if |steps| != 0 {
      var n := |steps| - 1;
      EpochsBounded(states, steps);
      RunPrefix(states, steps, n);
      ElectionsOk(states[..n + 1], steps[..n]);
      assert states[n] == states[..n + 1][n] && Bounded(states[n]) && VotesOnce(states[n]);
      ApplyElection(states[n], steps[n]);
    }
  }

  /** A winning count is the number of distinct voters of its epoch exactly when no early vote is in it. */
  lemma GenuineCount(states: seq<System>, steps: seq<Step>, w: Win)
    requires Run(states, steps) && w in states[|steps|].wins
    ensures w.backers <= Supporters(states[|steps|], w.epoch, w.winner)
    ensures w.count == |w.backers| <==> w.stale == 0
    ensures w.stale == 0 ==> w.count <= |Supporters(states[|steps|], w.epoch, w.winner)|
  {
    ElectionsOk(states, steps);
    assert WinOk(states[|steps|], w);
    forall v | v in w.backers ensures v in Supporters(states[|steps|], w.epoch, w.winner) {
      assert Vote(v, w.epoch, w.winner) in states[|steps|].granted;
    }
    SubsetSize(w.backers, Supporters(states[|steps|], w.epoch, w.winner));
  }

  // ----- agreed voters -----

  /** V gives the voters of each epoch: a node that has asked counts only voters of its epoch, and a quorum is
      taken of their number. */
  ghost predicate Agreed(s: System, st: Step, V: nat -> set<Id>)
    requires WellFormed(s) && Enabled(s, st)
  {
    var n := s.nodes[Actor(st)];
    && (st.Deliver? && Counted(n, st.m) && n.authSent ==> st.m.src in V(n.authEpoch))
    && (st.CheckQuorum? ==> n.view.size == |V(n.authEpoch)|)
  }

  /** A vote is counted by a node that has not asked for any since it reset its count. */
  ghost predicate EarlyVote(s: System, st: Step)
    requires WellFormed(s) && Enabled(s, st)
  {
    st.Deliver? && Counted(s.nodes[st.m.dst], st.m) && !s.nodes[st.m.dst].authSent
  }

  ghost predicate AgreedAt(states: seq<System>, steps: seq<Step>, V: nat -> set<Id>, k: nat) {
    && k < |steps| && k < |states| && WellFormed(states[k]) && Enabled(states[k], steps[k])
    && Agreed(states[k], steps[k], V)
  }

  ghost predicate EarlyAt(states: seq<System>, steps: seq<Step>, k: nat) {
    && k < |steps| && k < |states| && WellFormed(states[k]) && Enabled(states[k], steps[k])
    && EarlyVote(states[k], steps[k])
  }

  ghost predicate AgreedRun(states: seq<System>, steps: seq<Step>, V: nat -> set<Id>) {
    Run(states, steps) && forall k :: 0 <= k < |steps| ==> AgreedAt(states, steps, V, k)
  }

  /** Backers are voters of the epoch, and a win is a majority of them with its early votes. */
  ghost predicate VotersOk(s: System, V: nat -> set<Id>)
    requires WellFormed(s)
  {
    && (forall c :: 0 <= c < |s.nodes| ==> s.backers[c] <= V(s.nodes[c].authEpoch))
    && (forall w :: w in s.wins ==> w.backers <= V(w.epoch) && |V(w.epoch)| / 2 + 1 <= w.count)
  }

  lemma ApplyVoters(s: System, st: Step, V: nat -> set<Id>)
    requires WellFormed(s) && Enabled(s, st) && Agreed(s, st, V) && VotersOk(s, V) && ElectionOk(s)
    ensures WellFormed(Apply(s, st)) && VotersOk(Apply(s, st), V)
  {
    ApplyShape(s, st);
    var t := Apply(s, st);
    forall c | 0 <= c < |t.nodes| ensures t.backers[c] <= V(t.nodes[c].authEpoch) {
      AttemptKept(s, st, c);
      assert CandidateOk(s, c);
    }
  }

  lemma {:induction false} AgreedVoters(states: seq<System>, steps: seq<Step>, V: nat -> set<Id>)
    requires AgreedRun(states, steps, V)
    ensures WellFormed(states[|steps|]) && VotersOk(states[|steps|], V)
    decreases |steps|
  {
    if |steps| != 0 {
      var n := |steps| - 1;
      var states', steps' := states[..n + 1], steps[..n];
      RunPrefix(states, steps, n);
      forall k | 0 <= k < n ensures AgreedAt(states', steps', V, k) {
        assert AgreedAt(states, steps, V, k);
      }
      AgreedVoters(states', steps', V);
      ElectionsOk(states', steps');
      assert states[n] == states'[n] && AgreedAt(states, steps, V, n);
      ApplyVoters(states[n], steps[n], V);
    }
  }

  lemma MajoritiesMeet(a: set<Id>, b: set<Id>, all: set<Id>) returns (v: Id)
    requires a <= all && b <= all && |all| < 2 * |a| && |all| < 2 * |b|
    ensures v in a && v in b
  {
    if a * b == {} {
      assert |a + b| == |a| + |b|;
      SubsetSize(a + b, all);
      assert false;
    }
    v :| v in a * b;
  }

  /** Two winners of one epoch must share early votes between them: two for an even number of voters, one for
      an odd number. So two wins in one epoch without early votes have one winner, whatever else happened in
      the run. */
  lemma OneWinnerPerEpoch(states: seq<System>, steps: seq<Step>, V: nat -> set<Id>, w: Win, x: Win)
    requires AgreedRun(states, steps, V)
    requires w in states[|steps|].wins && x in states[|steps|].wins && w.epoch == x.epoch
    ensures w.stale + x.stale < 2 - |V(w.epoch)| % 2 ==> w.winner == x.winner
  {
    var s, all := states[|steps|], V(w.epoch);
    ElectionsOk(states, steps);
    AgreedVoters(states, steps, V);
    assert WinOk(s, w) && WinOk(s, x);
    forall v | v in w.backers && v in x.backers ensures w.winner == x.winner {
      assert Vote(v, w.epoch, w.winner) in s.granted && Vote(v, w.epoch, x.winner) in s.granted;
    }
    if w.backers !! x.backers {
      assert |w.backers + x.backers| == |w.backers| + |x.backers|;
      SubsetSize(w.backers + x.backers, all);
    }
  }

  ghost predicate NoEarlyVotes(s: System)
    requires WellFormed(s)
  {
    (forall c :: 0 <= c < |s.nodes| ==> s.stale[c] == 0) && forall w :: w in s.wins ==> w.stale == 0
  }

  lemma {:induction false} NoneEarly(states: seq<System>, steps: seq<Step>)
    requires Run(states, steps) && forall k: nat :: !EarlyAt(states, steps, k)
    ensures WellFormed(states[|steps|]) && NoEarlyVotes(states[|steps|])
    decreases |steps|
  {
    if |steps| != 0 {
      var n := |steps| - 1;
      var states', steps' := states[..n + 1], steps[..n];
      RunPrefix(states, steps, n);
      forall k: nat ensures !EarlyAt(states', steps', k) {
        assert !EarlyAt(states, steps, k);
      }
      NoneEarly(states', steps');
      assert states[n] == states'[n] && !EarlyAt(states, steps, n);
      ApplyShape(states[n], steps[n]);
    }
  }

  /** Over any run with agreed voters in which no vote of an earlier attempt is counted between the reset of
      a count and the new epoch, no two nodes pass the quorum check with the same election epoch. */
  lemma OneWinnerInFairRuns(states: seq<System>, steps: seq<Step>, V: nat -> set<Id>)
    requires AgreedRun(states, steps, V) && forall k: nat :: !EarlyAt(states, steps, k)
    ensures forall w, x :: w in states[|steps|].wins && x in states[|steps|].wins && w.epoch == x.epoch ==>
              w.winner == x.winner
  {
    NoneEarly(states, steps);
    forall w, x | w in states[|steps|].wins && x in states[|steps|].wins && w.epoch == x.epoch
      ensures w.winner == x.winner
    {
      OneWinnerPerEpoch(states, steps, V, w, x);
    }
  }

  function Supporters(s: System, epoch: nat, c: Id): set<Id> {
    set v | v in s.granted && v.epoch == epoch && v.candidate == c :: v.voter
  }

  /** Over any run, fair or not, no two candidates hold grants from size/2+1 of the same size
      voters in one epoch. */
  lemma NoTwoMajorities(states: seq<System>, steps: seq<Step>, epoch: nat, voters: set<Id>, c: Id, d: Id)
    requires Run(states, steps)
    requires |voters| / 2 + 1 <= |Supporters(states[|steps|], epoch, c) * voters|
    requires |voters| / 2 + 1 <= |Supporters(states[|steps|], epoch, d) * voters|
    ensures c == d
  {
    VoteOncePerEpoch(states, steps);
    var s := states[|steps|];
    var v := MajoritiesMeet(Supporters(s, epoch, c) * voters, Supporters(s, epoch, d) * voters, voters);
    assert Vote(v, epoch, c) in s.granted && Vote(v, epoch, d) in s.granted;
  }
}
