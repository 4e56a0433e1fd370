/** State machine safety for every run in which the handlers' missing checks are made: what two nodes
    have committed, at any two times, is one log. */
module RaftSafety {
  import opened Bytes
  import opened Raft
  import opened RaftElection
  import opened RaftDisk
  import opened RaftLog
  import opened RaftHistory
  import opened RaftBallots
  import opened RaftAcks

  // ------------------------------------------------------------------ leader completeness

  function Holders(c: Cluster, h: History, k: nat, t: nat): set<nat> {
    set v | v in c.voters && Held(c, h, v, t, k)
  }

  /** A quorum has held the entry `k` of term `t` in that term. */
  predicate Chosen(c: Cluster, h: History, k: nat, t: nat) {
    (k, t) in c.made && HasQuorum(c.voters, Holders(c, h, k, t))
  }

  ghost predicate Known(c: Cluster, h: History) {
    Elected(c) && Matching(c) && Orderly(c, h) && Ballots(c, h) && Acks(c, h)
  }

  /** A log on record is the reign of its last term, past what that leader was elected with. */
  lemma LogOfReign(c: Cluster, h: History, log: Log)
    requires Reigns(c, h) && LogOk(c.made, log) && log != []
    ensures var t := LastTerm(log);
            t in c.won && |h.elected[t]| < |log| <= |h.reign[t]| && log == h.reign[t][..|log|] && h.elected[t] <= log
    ensures TermsUpTo(log, LastTerm(log))
  {
    hide LogOk;
    var t := LastTerm(log);
    assert PrefixOf(c.made, log, |log|) by { Whole1(c.made, log); }
    assert MadeIn(c.made, h.elected[t], h.reign[t], |log|, t);
    assert ReignOk(c.made, h.elected[t], h.reign[t], t);
  }

  lemma Whole1(made: Made, log: Log)
    requires LogOk(made, log) && log != []
    ensures PrefixOf(made, log, |log|)
  {
  }

  /** A voter that has held the entry, and voted for a leader no worse off, gave it a leader that
      has it, if every leader before it had it. */
  lemma BetterHasIt(c: Cluster, h: History, k: nat, t: nat, s: nat, voter: Log)
    requires Reigns(c, h) && (k, t) in c.made && s in c.won && t < s
    requires LogOk(c.made, voter) && c.made[(k, t)] <= voter && AsGood(voter, h.elected[s])
    requires Clean(c, h, k, t, s)
    ensures c.made[(k, t)] <= h.elected[s]
  {
    hide LogOk, Extends;
    var p, lead := c.made[(k, t)], h.elected[s];
    assert MadeIn(c.made, h.elected[t], h.reign[t], k, t) && ReignOk(c.made, h.elected[t], h.reign[t], t);
    assert ReignOk(c.made, h.elected[s], h.reign[s], s);
    assert p[k - 1].term == t && voter[k - 1] == p[k - 1];
    LogOfReign(c, h, voter);
    assert t <= LastTerm(voter);
    assert LogOk(c.made, lead) by {
      PrefixOk(c.made, h.reign[s], |lead|);
      assert h.reign[s][..|lead|] == lead;
    }
    assert lead != [];
    LogOfReign(c, h, lead);
    var l := LastTerm(lead);
    assert lead[|lead| - 1].term == l < s;
    if l == LastTerm(voter) {
      assert voter == lead[..|voter|];
    } else {
      assert p <= h.elected[l];
    }
  }

  /** Leader completeness: a chosen entry is in the log of every later leader. */
  lemma {:induction false} LeaderCompleteness(c: Cluster, h: History, k: nat, t: nat, s: nat)
    requires Known(c, h) && Chosen(c, h, k, t) && s in c.won && t < s
    ensures s in h.elected && c.made[(k, t)] <= h.elected[s]
    decreases s
  {
    hide Elected, Matching, LogOk, ReignOk, MadeIn, AppsTold, InTerm, BallotOk, AskOk, AckOk, LeaderKnows, AnswerOk,
         KeptNow, HasQuorum, AsGood;
    assert Clean(c, h, k, t, s) by {
      forall r | r in c.won && t < r < s ensures r in h.elected && c.made[(k, t)] <= h.elected[r] {
        LeaderCompleteness(c, h, k, t, r);
      }
    }
    assert Seated(c, h, s);
    var v := QuorumsMeet(c.voters, Holders(c, h, k, t), h.electors[s]);
    assert KeptThen(c, h, v, s, t, k);
    BetterHasIt(c, h, k, t, s, h.ballot[(v, s)]);
  }

  lemma ChosenInReign(c: Cluster, h: History, k: nat, t: nat, u: nat)
    requires Known(c, h) && Chosen(c, h, k, t) && u in c.won && t <= u
    ensures u in h.reign && c.made[(k, t)] <= h.reign[u]
  {
    hide Elected, Matching, LogOk, AppsTold, InTerm, Ballots, Acks, HasQuorum, Holders;
    assert ReignOk(c.made, h.elected[u], h.reign[u], u);
    if t < u { LeaderCompleteness(c, h, k, t, u); } else { assert MadeIn(c.made, h.elected[t], h.reign[t], k, t); }
  }

  lemma ChosenTerm(c: Cluster, h: History, k: nat, t: nat)
    requires Known(c, h) && Chosen(c, h, k, t)
    ensures (k, t) in c.made && t in c.won && |c.made[(k, t)]| == k > 0
  {
    hide Elected, Matching, LogOk, AppsTold, InTerm, Ballots, Acks, HasQuorum, Holders, ReignOk;
    assert MadeIn(c.made, h.elected[t], h.reign[t], k, t);
  }

  /** Two chosen entries lie on one log. */
  lemma ChosenAgree(c: Cluster, h: History, k: nat, t: nat, j: nat, s: nat, n: nat)
    requires Known(c, h) && Chosen(c, h, k, t) && Chosen(c, h, j, s)
    requires n <= |c.made[(k, t)]| && n <= |c.made[(j, s)]|
    ensures c.made[(k, t)][..n] == c.made[(j, s)][..n]
  {
    hide *;
    var u := if t < s then s else t;
    ChosenTerm(c, h, k, t);
    ChosenTerm(c, h, j, s);
    ChosenInReign(c, h, k, t, u);
    ChosenInReign(c, h, j, s, u);
  }

  // ---------------------------------------------------------------------- what is committed

  /** The first `commit` entries of `log` are those of an entry chosen in a term up to `t`. */
  ghost predicate Settled(c: Cluster, h: History, log: Log, commit: nat, t: nat) {
    commit <= |log| && (commit == 0 || exists k, s :: Backs(c, h, log, commit, t, k, s))
  }

  predicate Backs(c: Cluster, h: History, log: Log, commit: nat, t: nat, k: nat, s: nat) {
    Chosen(c, h, k, s) && s <= t && commit <= |c.made[(k, s)]| && commit <= |log| && c.made[(k, s)][..commit] == log[..commit]
  }

  ghost predicate Told(c: Cluster, h: History, m: Msg) {
    m.App? || m.Heartbeat? ==> m.term in h.reign && Settled(c, h, h.reign[m.term], m.commit, m.term)
  }

  /** Whoever stands or leads does so in a term after the first. */
  ghost predicate Positive(c: Cluster) {
    0 !in c.won && forall i :: i in c.nodes && c.nodes[i].role.Candidate? ==> c.nodes[i].term > 0
  }

  ghost predicate Committed(c: Cluster, h: History) {
    && Positive(c)
    && (forall i :: i in c.nodes ==> Settled(c, h, c.nodes[i].log, c.nodes[i].commit, c.nodes[i].term))
    && (forall m :: m in c.net ==> Told(c, h, m))
  }

  lemma HeldStays(c: Cluster, h: History, e: Event, d: Cluster, g: History, n: Node, o: Node, v: nat, t: nat, k: nat)
    requires Shape(c, h, e, d, g, n, o) && Extends(c.made, d.made) && Held(c, h, v, t, k)
    ensures Held(d, g, v, t, k)
  {
    hide LogStep, VoteFrom, FirstVote, HoldsAll, ComesToLead;
  }

  lemma ChosenStays(c: Cluster, h: History, e: Event, d: Cluster, g: History, n: Node, o: Node, k: nat, t: nat)
    requires Shape(c, h, e, d, g, n, o) && Extends(c.made, d.made) && Chosen(c, h, k, t)
    ensures Chosen(d, g, k, t) && d.made[(k, t)] == c.made[(k, t)]
  {
    forall v | v in Holders(c, h, k, t) ensures v in Holders(d, g, k, t) { HeldStays(c, h, e, d, g, n, o, v, t, k); }
    hide LogStep, VoteFrom, FirstVote, HoldsAll, ComesToLead, Held;
    SubsetSize(c.voters * Holders(c, h, k, t), d.voters * Holders(d, g, k, t));
  }

  /** Settled stays settled when log and term grow. */
  lemma SettledStays(c: Cluster, h: History, e: Event, d: Cluster, g: History, n: Node, o: Node,
                     log: Log, after: Log, commit: nat, t: nat, u: nat)
    requires Shape(c, h, e, d, g, n, o) && Extends(c.made, d.made) && Settled(c, h, log, commit, t)
    requires t <= u && commit <= |after| && after[..commit] == log[..commit]
    ensures Settled(d, g, after, commit, u)
  {
    hide Shape, Extends, Chosen;
    if commit > 0 {
      var k, s :| Backs(c, h, log, commit, t, k, s);
      ChosenStays(c, h, e, d, g, n, o, k, s);
      assert Backs(d, g, after, commit, u, k, s);
    }
  }

  /** A shorter commit index of a log that the settled one starts with. */
  lemma SettledShorter(c: Cluster, h: History, whole: Log, told: nat, log: Log, commit: nat, t: nat)
    requires Settled(c, h, whole, told, t) && log <= whole && commit <= told && commit <= |log|
    ensures Settled(c, h, log, commit, t)
  {
    hide Holders, HasQuorum;
    if commit > 0 {
      var k, s :| Backs(c, h, whole, told, t, k, s);
      assert c.made[(k, s)][..commit] == c.made[(k, s)][..told][..commit];
      assert whole[..commit] == whole[..told][..commit] == log[..commit];
      assert Backs(c, h, log, commit, t, k, s);
    }
  }

  /** What is settled in a term is part of that term's leader's log. */
  lemma SettledInReign(c: Cluster, h: History, log: Log, commit: nat, t: nat, u: nat)
    requires Known(c, h) && Settled(c, h, log, commit, t) && t <= u && u in c.won
    ensures u in h.reign && log[..commit] <= h.reign[u]
  {
    hide Known, Chosen;
    if commit > 0 {
      var k, s :| Backs(c, h, log, commit, t, k, s);
      ChosenInReign(c, h, k, s, u);
    } else {
      assert u in h.reign by { WonHasReign(c, h, u); }
    }
  }

  lemma WonHasReign(c: Cluster, h: History, u: nat)
    requires Known(c, h) && u in c.won
    ensures u in h.reign
  {
    hide Elected, Matching, LogOk, AppsTold, InTerm, Ballots, Acks, ReignOk, MadeIn;
  }

  // ------------------------------------------------------------------- commit, step by step

  /** How a commit index moves: not at all, to a leader's commit point, or as far as a leader said. */
  ghost predicate CommitStep(n: Node, o: Node, e: Event, voters: set<nat>) {
    || o.commit == n.commit
    || (n.commit < o.commit && o.role.Leader? && TermAt(o.log, o.commit) == o.term
        && IsCommitPoint(o, voters, o.commit))
    || (n.commit < o.commit && e.Deliver? && e.m.App? && Accepts(n, e.m) && o.commit <= e.m.commit && o.commit <= |o.log|)
    || (n.commit < o.commit && e.Deliver? && e.m.Heartbeat? && o.term == e.m.term && o.log == n.log
        && o.commit <= e.m.commit && o.commit <= |o.log| && o == HandleHeartbeat(n, e.m).node)
  }

  lemma NodeStepCommits(n: Node, e: Event, voters: set<nat>)
    requires PointRight(n, e, voters)
    ensures CommitStep(n, NodeStep(n, e, voters).node, e, voters)
  {
    hide PutEntries, PutLast, NoWorse, HasQuorum, LastTerm, TermAt, IsCommitPoint, SendApps, Replayed,
         HandleApp, HandleAppResp, Propose;
    SendsLeave();
    var o := NodeStep(n, e, voters).node;
    if e.Deliver? && e.m.App? {
      AppCommits(n, e.m);
    } else if e.ProposeAt? {
      ProposeCommits(n, e.data, voters, e.point, e.limit);
    } else if e.Deliver? && e.m.AppResp? {
      AnswerCommits(n, e.m, voters, e.point, e.limit);
    }
  }

  /** Unchanged, or moved to the commit point, at an entry of the leader's term. */
  ghost predicate LeadCommits(n: Node, o: Node, voters: set<nat>) {
    o.commit == n.commit
    || (n.commit < o.commit && o.role.Leader? && TermAt(o.log, o.commit) == o.term && IsCommitPoint(o, voters, o.commit))
  }

  lemma ProposeCommits(n: Node, data: seq<byte>, voters: set<nat>, point: nat, limit: nat)
    requires n.role.Leader? ==> IsCommitPoint(n.(log := n.log + [Entry(n.term, data)]), voters, point)
    ensures LeadCommits(n, Propose(n, data, voters, point, limit).node, voters)
  {
    hide TermAt, SendApps, IsCommitPoint;
    SendsLeave();
    if n.role.Leader? {
      SamePoint(n.(log := n.log + [Entry(n.term, data)]), Propose(n, data, voters, point, limit).node, voters, point);
    }
  }

  lemma AnswerCommits(n: Node, m: Msg, voters: set<nat>, point: nat, limit: nat)
    requires m.AppResp? && (!m.reject ==> IsCommitPoint(n.(match_ := n.match_[m.from := m.index]), voters, point))
    ensures LeadCommits(n, HandleAppResp(n, m, voters, point, limit).node, voters)
  {
    hide TermAt, SendApps, IsCommitPoint;
    SendsLeave();
    var o := HandleAppResp(n, m, voters, point, limit).node;
    if o.commit != n.commit {
      SamePoint(n.(match_ := n.match_[m.from := m.index]), o, voters, point);
    }
  }

  lemma AppCommits(n: Node, m: Msg)
    requires m.App?
    ensures var o := HandleApp(n, m).node;
            o.commit == n.commit || (n.commit < o.commit && Accepts(n, m) && o.commit <= m.commit && o.commit <= |o.log|)
  {
    hide PutEntries, PutLast;
  }

  /** The entry at a leader's commit point is chosen. */
  lemma PointChosen(c: Cluster, h: History, n: Node)
    requires n.role.Leader? && n.term > 0 && n.commit > 0 && TermAt(n.log, n.commit) == n.term
    requires LogOk(c.made, n.log) && LeaderKnows(h, n) && c.voters != {} && IsCommitPoint(n, c.voters, n.commit)
    ensures Settled(c, h, n.log, n.commit, n.term)
  {
    var k, t := n.commit, n.term;
    assert PrefixOf(c.made, n.log, k);
    var reached := Reached(n, c.voters, k);
    forall v | v in reached ensures v in Holders(c, h, k, t) {
      assert MatchOf(n, v) <= Ack(h, v, t);
    }
    SubsetSize(reached, c.voters * Holders(c, h, k, t));
    assert Backs(c, h, n.log, k, t, k, t);
  }

  /** A heartbeat that moves a commit index meets a log of its own term, part of the leader's. */
  lemma BeatInReign(c: Cluster, h: History, log: Log, t: nat)
    requires Reigns(c, h) && LogOk(c.made, log) && log != [] && LastTerm(log) == t
    ensures t in h.reign && log <= h.reign[t]
  {
    hide LogOk, ReignOk;
    LogOfReign(c, h, log);
  }

  /** No append takes back what a node has committed. */
  lemma CommitKept(c: Cluster, h: History, e: Event, d: Cluster, g: History, n: Node, o: Node)
    requires Between(c, h, e, d, g, n, o) && Known(c, h) && Settled(c, h, n.log, n.commit, n.term)
    ensures n.commit <= |o.log| && o.log[..n.commit] == n.log[..n.commit]
  {
    hide Settled, Known, LogOk, VoteFrom, FirstVote, Reigns, Acks, HoldsAll, ComesToLead, AppOk, Whole, MadeOk,
         EndsRight, PutEntries, Extends, Lasting, InTerm;
    assert n.commit <= |n.log| by { Bounded(c, h, n.log, n.commit, n.term); }
    if e.Deliver? && e.m.App? && Accepts(n, e.m) {
      var u, p := e.m.term, n.log[..n.commit];
      SettledInReign(c, h, n.log, n.commit, n.term, u);
      Appended(c.made, n, e.m, h.reign[u]);
      PrefixSurvives(p, n.log, Base(c.made, e.m.index, e.m.logTerm) + e.m.entries, o.log, h.reign[u]);
    }
  }

  lemma Bounded(c: Cluster, h: History, log: Log, commit: nat, t: nat)
    requires Settled(c, h, log, commit, t)
    ensures commit <= |log|
  {
  }

  lemma AppSettles(c: Cluster, h: History, e: Event, d: Cluster, g: History, n: Node, o: Node)
    requires Between(c, h, e, d, g, n, o) && e.Deliver? && e.m.App? && Accepts(n, e.m) && Told(c, h, e.m)
    requires o.commit <= e.m.commit && o.commit <= |o.log|
    ensures Settled(d, g, o.log, o.commit, o.term)
  {
    hide Settled, LogOk, VoteFrom, FirstVote, Reigns, Acks, HoldsAll, ComesToLead, AppOk, Whole, MadeOk, EndsRight,
         PutEntries, Lasting, InTerm, Accepts;
    InReign(c, h, n, e.m, o.log);
    SettledShorter(c, h, h.reign[e.m.term], e.m.commit, o.log, o.commit, e.m.term);
    SettledStays(c, h, e, d, g, n, o, o.log, o.log, o.commit, e.m.term, o.term);
  }

  lemma BeatSettles(c: Cluster, h: History, e: Event, d: Cluster, g: History, n: Node, o: Node)
    requires Between(c, h, e, d, g, n, o) && e.Deliver? && e.m.Heartbeat? && Told(c, h, e.m)
    requires o.log == n.log && n.log != [] && LastTerm(n.log) == e.m.term == o.term
    requires o.commit <= e.m.commit && o.commit <= |o.log|
    ensures Settled(d, g, o.log, o.commit, o.term)
  {
    hide Settled, LogOk, VoteFrom, FirstVote, Reigns, Acks, HoldsAll, ComesToLead, AppOk, Whole, MadeOk, EndsRight,
         PutEntries, Lasting, InTerm, LogStep;
    BeatInReign(c, h, n.log, e.m.term);
    SettledShorter(c, h, h.reign[e.m.term], e.m.commit, o.log, o.commit, e.m.term);
    SettledStays(c, h, e, d, g, n, o, o.log, o.log, o.commit, e.m.term, o.term);
  }

  lemma LeadSettles(d: Cluster, g: History, o: Node)
    requires Known(d, g) && Positive(d) && o.id in d.nodes && d.nodes[o.id] == o
    requires o.role.Leader? && o.commit > 0 && TermAt(o.log, o.commit) == o.term && IsCommitPoint(o, d.voters, o.commit)
    ensures Settled(d, g, o.log, o.commit, o.term)
  {
    hide Settled, Elected, Matching, Orderly, Ballots, Acks, LogOk, LeaderKnows, IsCommitPoint, Positive, TermAt;
    LeaderSits(d, o);
    LogKnown(d, o.id);
    AcksKnown(d, g, o.id);
    PointChosen(d, g, o);
  }

  lemma LeaderSits(d: Cluster, o: Node)
    requires Elected(d) && Positive(d) && o.id in d.nodes && d.nodes[o.id] == o && o.role.Leader?
    ensures o.term > 0 && d.voters != {}
  {
    hide VotesTrue, VotesRecorded, NodesNamed, Backers;
    assert Wins(d, o.term, o.id);
    assert HasQuorum(d.voters, Backers(d, o.term, o.id));
  }

  lemma LogKnown(d: Cluster, i: nat)
    requires Matching(d) && i in d.nodes
    ensures LogOk(d.made, d.nodes[i].log)
  {
    hide LogOk, MadeOk, FromLeader, AppOk, Sound;
  }

  lemma AcksKnown(d: Cluster, g: History, i: nat)
    requires Acks(d, g) && i in d.nodes
    ensures LeaderKnows(g, d.nodes[i])
  {
    hide AckOk, AnswerOk, KeptNow, KeptThen, LeaderKnows;
  }

  lemma ActorSettles(c: Cluster, h: History, e: Event, d: Cluster, g: History, n: Node, o: Node)
    requires Between(c, h, e, d, g, n, o) && Known(c, h) && Known(d, g) && Positive(d) && Careful(c, e)
    requires Settled(c, h, n.log, n.commit, n.term) && CommitStep(n, o, e, c.voters)
    requires e.Deliver? ==> Told(c, h, e.m)
    ensures Settled(d, g, o.log, o.commit, o.term)
  {
    hide Settled, Known, LogOk, VoteFrom, FirstVote, Reigns, Acks, HoldsAll, ComesToLead, AppOk, Whole, MadeOk,
         EndsRight, PutEntries, Lasting, InTerm, IsCommitPoint, Told, Accepts, LastTerm, TermAt, LogStep, Positive,
         Steady;
    if o.commit == n.commit {
      CommitKept(c, h, e, d, g, n, o);
      SettledStays(c, h, e, d, g, n, o, n.log, o.log, o.commit, n.term, o.term);
    } else if e.Deliver? && e.m.App? && Accepts(n, e.m) && o.commit <= e.m.commit && o.commit <= |o.log| {
      AppSettles(c, h, e, d, g, n, o);
    } else if e.Deliver? && e.m.Heartbeat? && o == HandleHeartbeat(n, e.m).node {
      BeatSettles(c, h, e, d, g, n, o);
    } else {
      LeadSettles(d, g, o);
    }
  }

  lemma KeepsPositive(c: Cluster, e: Event)
    requires Elected(c) && Enabled(c, e) && Positive(c)
    ensures Positive(Step(c, e))
  {
    hide NodeStep, VotesTrue, VotesRecorded, PointRight, HasQuorum, Backers, CountsGrant;
    StepMoves(c, e);
    var n := c.nodes[Actor(e)];
    assert n.role.Leader? ==> Wins(c, n.term, n.id);
  }

  /** What a leader tells of its commit index is settled in its own log. */
  lemma KeepsToldNew(c: Cluster, h: History, e: Event, d: Cluster, g: History, m: Msg)
    requires NodesNamed(c) && Enabled(c, e) && d == Step(c, e) && g == Recorded(c, h, e)
    requires m in NodeStep(c.nodes[Actor(e)], e, c.voters).sent
    requires var o := d.nodes[Actor(e)]; Settled(d, g, o.log, o.commit, o.term)
    ensures Told(d, g, m)
  {
    hide NodeStep, Settled, PointRight, Carries;
    var o := d.nodes[Actor(e)];
    if m.App? || m.Heartbeat? {
      NodeStepSends(c.nodes[Actor(e)], e, c.voters, m);
      Bounded(d, g, o.log, o.commit, o.term);
      SettledShorter(d, g, o.log, o.commit, o.log, m.commit, o.term);
    }
  }

  lemma KeepsToldOld(c: Cluster, h: History, e: Event, d: Cluster, g: History, n: Node, o: Node, m: Msg)
    requires Between(c, h, e, d, g, n, o) && FromLeader(c, m) && Told(c, h, m)
    ensures Told(d, g, m)
  {
    hide Settled, LogOk, VoteFrom, FirstVote, Reigns, Acks, HoldsAll, ComesToLead, AppOk, Whole, MadeOk, EndsRight,
         PutEntries, InTerm, LogStep, Extends, Accepts;
    if m.App? || m.Heartbeat? {
      var was, now := h.reign[m.term], g.reign[m.term];
      assert was <= now;
      assert m.commit <= |was| by { Bounded(c, h, was, m.commit, m.term); }
      SettledStays(c, h, e, d, g, n, o, was, now, m.commit, m.term, m.term);
    }
  }

  lemma StepKeepsKnown(c: Cluster, h: History, e: Event)
    requires Known(c, h) && Enabled(c, e) && Careful(c, e)
    ensures Known(Step(c, e), Recorded(c, h, e))
  {
    StepKeepsMatching(c, e);
    StepKeepsOrderly(c, h, e);
    StepKeepsBallots(c, h, e);
    StepKeepsAcks(c, h, e);
    hide Elected, Matching, Orderly, Ballots, Acks, Step, Recorded, PointRight, Careful;
  }

  lemma StepKeepsCommitted(c: Cluster, h: History, e: Event)
    requires Known(c, h) && Committed(c, h) && Enabled(c, e) && Careful(c, e)
    ensures Known(Step(c, e), Recorded(c, h, e)) && Committed(Step(c, e), Recorded(c, h, e))
    ensures Extends(c.made, Step(c, e).made)
  {
    hide Elected, Matching, Orderly, Ballots, Acks, Careful, PointRight, NodeStep, Recorded, Between, Settled, Told,
         CommitStep, Positive, Shape, Extends;
    var i, d, g := Actor(e), Step(c, e), Recorded(c, h, e);
    var n, o := c.nodes[i], d.nodes[i];
    StepKeepsKnown(c, h, e);
    StepBetween(c, h, e);
    MadeGrows(c, e);
    KeepsPositive(c, e);
    NodeStepCommits(n, e, c.voters);
    ActorSettles(c, h, e, d, g, n, o);
    assert NodesNamed(c) by { IsNamed(c); }
    assert Shape(c, h, e, d, g, n, o) by { BetweenShape(c, h, e, d, g, n, o); }
    forall j | j in d.nodes ensures Settled(d, g, d.nodes[j].log, d.nodes[j].commit, d.nodes[j].term) {
      if j != i {
        var q := c.nodes[j];
        assert q.commit <= |q.log| by { Bounded(c, h, q.log, q.commit, q.term); }
        SettledStays(c, h, e, d, g, n, o, q.log, q.log, q.commit, q.term, q.term);
      }
    }
    forall m | m in d.net ensures Told(d, g, m) {
      if m in c.net {
        assert FromLeader(c, m) by { SentByLeader(c, m); }
        KeepsToldOld(c, h, e, d, g, n, o, m);
      } else {
        KeepsToldNew(c, h, e, d, g, m);
      }
    }
  }

  lemma BetweenShape(c: Cluster, h: History, e: Event, d: Cluster, g: History, n: Node, o: Node)
    requires Between(c, h, e, d, g, n, o)
    ensures Shape(c, h, e, d, g, n, o) && Extends(c.made, d.made)
  {
    hide Reigns, Acks, Shape, Lasting, InTerm, MadeOk, LogOk, Extends, AppOk, Whole, EndsRight, Accepts;
  }

  lemma IsNamed(c: Cluster)
    requires Elected(c)
    ensures NodesNamed(c)
  {
    hide VotesRecorded, LeadersBacked;
  }

  lemma SentByLeader(c: Cluster, m: Msg)
    requires Matching(c) && m in c.net
    ensures FromLeader(c, m)
  {
    hide MadeOk, LogOk, AppOk;
  }

  // -------------------------------------------------------------------------- whole runs

  /** A run with every vote, answer, append and heartbeat checked as it should be. */
  ghost predicate CarefulRun(c: Cluster, es: seq<Event>)
    decreases |es|
  {
    es != [] ==> Enabled(c, es[0]) && Careful(c, es[0]) && CarefulRun(Step(c, es[0]), es[1..])
  }

  lemma InitialKnown(voters: set<nat>)
    requires 0 !in voters
    ensures Known(Initial(voters), NO_HISTORY) && Committed(Initial(voters), NO_HISTORY)
  {
    InitialElected(voters);
    InitialMatching(voters);
    var c := Initial(voters);
    assert c.net == {} && c.made == map[] && c.won == map[] && c.cast == map[];
    hide Elected, Matching;
  }

  lemma {:induction false} RunKeepsCommitted(c: Cluster, h: History, es: seq<Event>) returns (g: History)
    requires Known(c, h) && Committed(c, h) && CarefulRun(c, es)
    ensures Known(After(c, es), g) && Committed(After(c, es), g)
    ensures forall log: Log, commit, t :: Settled(c, h, log, commit, t) ==> Settled(After(c, es), g, log, commit, t)
    decreases |es|
  {
    hide Known, Committed, Step, PointRight, Careful, Settled, Recorded;
    if es == [] {
      g := h;
    } else {
      var d, k := Step(c, es[0]), Recorded(c, h, es[0]);
      StepKeepsCommitted(c, h, es[0]);
      g := RunKeepsCommitted(d, k, es[1..]);
      forall log: Log, commit, t | Settled(c, h, log, commit, t) ensures Settled(d, k, log, commit, t) {
        SettledOn(c, h, es[0], log, commit, t);
      }
    }
  }

  lemma SettledOn(c: Cluster, h: History, e: Event, log: Log, commit: nat, t: nat)
    requires Known(c, h) && Enabled(c, e) && Careful(c, e) && Settled(c, h, log, commit, t)
    ensures Settled(Step(c, e), Recorded(c, h, e), log, commit, t)
  {
    hide Settled, Elected, Orderly, Ballots, Acks, Shape, NodeStep, PointRight, Recorded, Careful, Between, Matching,
         Extends;
    StepBetween(c, h, e);
    BetweenShape(c, h, e, Step(c, e), Recorded(c, h, e), c.nodes[Actor(e)], Step(c, e).nodes[Actor(e)]);
    Bounded(c, h, log, commit, t);
    SettledStays(c, h, e, Step(c, e), Recorded(c, h, e), c.nodes[Actor(e)], Step(c, e).nodes[Actor(e)], log, log, commit, t, t);
  }

  /** Two settled logs agree as far as both are settled. */
  lemma SettledAgree(c: Cluster, h: History, a: Log, b: Log, x: nat, y: nat, t: nat, u: nat, n: nat)
    requires Known(c, h) && Settled(c, h, a, x, t) && Settled(c, h, b, y, u) && n <= x && n <= y
    ensures n <= |a| && n <= |b| && a[..n] == b[..n]
  {
    hide Known, Holders, HasQuorum;
    if n > 0 {
      var k, s :| Backs(c, h, a, x, t, k, s);
      var j, r :| Backs(c, h, b, y, u, j, r);
      ChosenAgree(c, h, k, s, j, r, n);
      assert a[..n] == a[..x][..n] && b[..n] == b[..y][..n];
      assert c.made[(k, s)][..n] == c.made[(k, s)][..x][..n] && c.made[(j, r)][..n] == c.made[(j, r)][..y][..n];
    }
  }

  /** State machine safety: what node `i` has committed at one time and node `j` at a later time
      agree as far as both go. */
  lemma StateMachineSafety(voters: set<nat>, es: seq<Event>, more: seq<Event>, i: nat, j: nat, n: nat)
    requires 0 !in voters && CarefulRun(Initial(voters), es) && CarefulRun(After(Initial(voters), es), more)
    requires i in After(Initial(voters), es).nodes && j in After(After(Initial(voters), es), more).nodes
    requires n <= After(Initial(voters), es).nodes[i].commit
    requires n <= After(After(Initial(voters), es), more).nodes[j].commit
    ensures var a, b := After(Initial(voters), es).nodes[i].log, After(After(Initial(voters), es), more).nodes[j].log;
            n <= |a| && n <= |b| && a[..n] == b[..n]
  {
    hide Initial, After, CarefulRun, Known, Settled, Told, Positive;
    InitialKnown(voters);
    var h := RunKeepsCommitted(Initial(voters), NO_HISTORY, es);
    var c := After(Initial(voters), es);
    var g := RunKeepsCommitted(c, h, more);
    var d := After(c, more);
    var p, q := c.nodes[i], d.nodes[j];
    assert Settled(c, h, p.log, p.commit, p.term);
    SettledAgree(d, g, p.log, q.log, p.commit, q.commit, p.term, q.term, n);
  }
}
