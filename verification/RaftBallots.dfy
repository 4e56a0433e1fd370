/** The logs behind the votes: whoever leads a term was at least as up to date as every one of its
    voters was when it voted. */
module RaftBallots {
  import opened Raft
  import opened RaftElection
  import opened RaftDisk
  import opened RaftLog
  import opened RaftHistory

  predicate AsGood(voter: Log, candidate: Log) {
    UpToDate(voter, |candidate|, LastTerm(candidate))
  }

  predicate Stands(c: Cluster, i: nat, t: nat) {
    i in c.nodes && c.nodes[i].role.Candidate? && c.nodes[i].term == t
  }

  /** The vote of `v` in term `t`. */
  ghost predicate BallotOk(c: Cluster, h: History, v: nat, t: nat)
    requires (v, t) in c.cast
  {
    var i := c.cast[(v, t)];
    && i in c.nodes && t <= c.nodes[i].term
    && (t !in c.won ==> (v, t) in h.ballot)
    && (t !in c.won && Stands(c, i, t) && (v, t) in h.ballot ==> AsGood(h.ballot[(v, t)], c.nodes[i].log))
  }

  ghost predicate AskOk(c: Cluster, m: Msg)
    requires m.Vote?
  {
    && m.from in c.nodes && m.term <= c.nodes[m.from].term
    && (Stands(c, m.from, m.term) ==>
          m.index == |c.nodes[m.from].log| && m.logTerm == LastTerm(c.nodes[m.from].log))
  }

  /** Everyone who put the leader of `t` in place had a log no better than its own. */
  ghost predicate Seated(c: Cluster, h: History, t: nat) {
    && t in h.electors && t in h.elected && HasQuorum(c.voters, h.electors[t])
    && (forall v :: v in h.electors[t] ==> (v, t) in h.ballot && AsGood(h.ballot[(v, t)], h.elected[t]))
  }

  ghost predicate Ballots(c: Cluster, h: History) {
    && (forall v, t :: (v, t) in h.ballot ==> (v, t) in c.cast && LogOk(c.made, h.ballot[(v, t)]))
    && (forall v, t :: (v, t) in c.cast ==> BallotOk(c, h, v, t))
    && (forall m :: m in c.net && m.Vote? ==> AskOk(c, m))
    && (forall t :: t in c.won ==> Seated(c, h, t))
  }

  /** A step, its history, and what the election invariant says of it. */
  ghost predicate Polling(c: Cluster, h: History, e: Event, d: Cluster, g: History, n: Node, out: Out) {
    && Settling(c, h, e, d, g, n, out.node) && Lasting(c, h, g) && Ballots(c, h)
    && NodesNamed(c) && VotesRecorded(c) && VoteStep(n, out, e, c.voters)
    && (e.Deliver? ==> e.m in c.net)
  }

  lemma KeepsBallot(c: Cluster, h: History, e: Event, d: Cluster, g: History, n: Node, out: Out, v: nat, t: nat)
    requires Polling(c, h, e, d, g, n, out) && (v, t) in g.ballot
    ensures (v, t) in d.cast && LogOk(d.made, g.ballot[(v, t)])
  {
    hide LogStep, VoteFrom, HoldsAll, Reigns, Lasting, MadeOk, CountsGrant, HasQuorum, LogOk, InTerm, BallotOk, Seated;
    if (v, t) in h.ballot {
      MoreMade(c.made, d.made, h.ballot[(v, t)]);
    }
  }

  /** While a node stands in one term its log does not change. */
  lemma StandsStill(c: Cluster, h: History, e: Event, d: Cluster, g: History, n: Node, out: Out, t: nat)
    requires Polling(c, h, e, d, g, n, out) && Stands(d, Actor(e), t) && t <= n.term
    ensures Stands(c, Actor(e), t) && out.node.log == n.log
  {
    hide VoteFrom, HoldsAll, Reigns, Lasting, MadeOk, CountsGrant, HasQuorum, LogOk, InTerm, BallotOk, Seated;
  }

  lemma OldVote(c: Cluster, h: History, e: Event, d: Cluster, g: History, n: Node, out: Out, v: nat, t: nat)
    requires Polling(c, h, e, d, g, n, out) && (v, t) in c.cast
    ensures (v, t) in d.cast && d.cast[(v, t)] == c.cast[(v, t)]
    ensures (v, t) in h.ballot ==> (v, t) in g.ballot && g.ballot[(v, t)] == h.ballot[(v, t)]
  {
    hide LogStep, VoteFrom, HoldsAll, Reigns, Lasting, MadeOk, CountsGrant, HasQuorum, LogOk, InTerm, BallotOk, Seated;
  }

  lemma KeepsOldVote(c: Cluster, h: History, e: Event, d: Cluster, g: History, n: Node, out: Out, v: nat, t: nat)
    requires Polling(c, h, e, d, g, n, out) && (v, t) in c.cast
    ensures (v, t) in d.cast && BallotOk(d, g, v, t)
  {
    OldVote(c, h, e, d, g, n, out, v, t);
    var i := c.cast[(v, t)];
    assert BallotOk(c, h, v, t);
    if Stands(d, i, t) && i == Actor(e) {
      StandsStill(c, h, e, d, g, n, out, t);
    }
    hide LogStep, VoteFrom, HoldsAll, Reigns, Lasting, MadeOk, CountsGrant, HasQuorum, LogOk, InTerm, Seated,
         VotesRecorded;
  }

  lemma KeepsNewVote(c: Cluster, h: History, e: Event, d: Cluster, g: History, n: Node, out: Out)
    requires Polling(c, h, e, d, g, n, out) && out.node.vote != 0 && (Actor(e), out.node.term) !in c.cast
    ensures (Actor(e), out.node.term) in d.cast && BallotOk(d, g, Actor(e), out.node.term)
  {
    hide LogStep, HoldsAll, Reigns, Lasting, MadeOk, CountsGrant, HasQuorum, LogOk, InTerm, Seated, LastTerm;
    var i, o := out.node.vote, out.node;
    if i != Actor(e) {
      assert e.Deliver? && e.m.Vote? && i == e.m.from && o.term == e.m.term;
      assert AskOk(c, e.m);
    }
  }

  lemma KeepsAsk(c: Cluster, h: History, e: Event, d: Cluster, g: History, n: Node, out: Out, m: Msg)
    requires Polling(c, h, e, d, g, n, out) && m in c.net && m.Vote?
    ensures AskOk(d, m)
  {
    assert AskOk(c, m);
    if Stands(d, m.from, m.term) && m.from == Actor(e) {
      StandsStill(c, h, e, d, g, n, out, m.term);
    }
    hide LogStep, VoteFrom, HoldsAll, Reigns, Lasting, MadeOk, CountsGrant, HasQuorum, LogOk, InTerm, Seated,
         VotesRecorded, BallotOk;
  }

  lemma KeepsSeat(c: Cluster, h: History, e: Event, d: Cluster, g: History, n: Node, out: Out, t: nat)
    requires Polling(c, h, e, d, g, n, out) && t in c.won
    ensures Seated(d, g, t)
  {
    hide LogStep, VoteFrom, HoldsAll, Reigns, MadeOk, CountsGrant, LogOk, InTerm, VotesRecorded, BallotOk, HasQuorum;
    assert Seated(c, h, t);
    forall v | v in g.electors[t] ensures (v, t) in g.ballot && AsGood(g.ballot[(v, t)], g.elected[t]) {
      assert (v, t) in h.ballot;
      OldVote(c, h, e, d, g, n, out, v, t);
    }
  }

  /** The votes a candidate of this term counts are on record with logs no better than its own. */
  lemma VoteBehind(c: Cluster, h: History, e: Event, d: Cluster, g: History, n: Node, out: Out, v: nat)
    requires Polling(c, h, e, d, g, n, out) && LeadersBacked(c) && Fresh(c, e)
    requires ComesToLead(n, out.node) && v in out.node.votes
    ensures (v, out.node.term) in g.ballot && AsGood(g.ballot[(v, out.node.term)], out.node.log)
  {
    hide LogStep, VoteFrom, HoldsAll, Reigns, Lasting, MadeOk, CountsGrant, LogOk, InTerm, VotesRecorded, Seated,
         Ballots, LeadersBacked, Fresh, FirstVote, HasQuorum;
    var o, t := out.node, out.node.term;
    if o.term > n.term {
      assert v == Actor(e);
      NewTerm(c, h, e, d, g, n, out);
    } else {
      CountedVote(c, h, e, d, g, n, out, v);
      OldVote(c, h, e, d, g, n, out, v, t);
    }
  }

  lemma NewTerm(c: Cluster, h: History, e: Event, d: Cluster, g: History, n: Node, out: Out)
    requires Polling(c, h, e, d, g, n, out) && ComesToLead(n, out.node) && out.node.term > n.term
    ensures (Actor(e), out.node.term) in g.ballot && g.ballot[(Actor(e), out.node.term)] == out.node.log
  {
    hide LogStep, VoteFrom, HoldsAll, Reigns, Lasting, MadeOk, CountsGrant, LogOk, InTerm, Seated, HasQuorum;
  }

  lemma CountedVote(c: Cluster, h: History, e: Event, d: Cluster, g: History, n: Node, out: Out, v: nat)
    requires Polling(c, h, e, d, g, n, out) && LeadersBacked(c) && Fresh(c, e)
    requires ComesToLead(n, out.node) && v in out.node.votes && out.node.term == n.term
    ensures (v, n.term) in h.ballot && AsGood(h.ballot[(v, n.term)], n.log) && out.node.log == n.log
    ensures (v, n.term) in c.cast
  {
    hide VoteFrom, HoldsAll, Reigns, Lasting, MadeOk, LogOk, InTerm, Seated, HasQuorum, LastTerm, UpToDate, Wins,
         Backers;
    assert VotesTrue(c, n);
    assert CastFor(c, v, n.term, n.id);
    assert BallotOk(c, h, v, n.term);
  }

  lemma NewSeat(c: Cluster, h: History, e: Event, d: Cluster, g: History, n: Node, out: Out)
    requires Polling(c, h, e, d, g, n, out) && LeadersBacked(c) && Fresh(c, e) && ComesToLead(n, out.node)
    ensures Seated(d, g, out.node.term)
  {
    hide LogStep, VoteFrom, HoldsAll, Reigns, Lasting, MadeOk, CountsGrant, LogOk, InTerm, VotesRecorded, BallotOk,
         HasQuorum, AsGood, Ballots, LeadersBacked, Fresh, FirstVote;
    var o := out.node;
    forall v | v in o.votes ensures (v, o.term) in g.ballot && AsGood(g.ballot[(v, o.term)], o.log) {
      VoteBehind(c, h, e, d, g, n, out, v);
    }
  }

  lemma NewCast(c: Cluster, h: History, e: Event, d: Cluster, g: History, n: Node, out: Out, v: nat, t: nat)
    requires Polling(c, h, e, d, g, n, out) && (v, t) in d.cast && (v, t) !in c.cast
    ensures v == Actor(e) && t == out.node.term && out.node.vote != 0
  {
    hide LogStep, VoteFrom, HoldsAll, Reigns, Lasting, MadeOk, CountsGrant, LogOk, InTerm, VotesRecorded, Ballots,
         HasQuorum;
  }

  lemma NewWon(c: Cluster, h: History, e: Event, d: Cluster, g: History, n: Node, out: Out, t: nat)
    requires Polling(c, h, e, d, g, n, out) && LeadersBacked(c) && t in d.won && t !in c.won
    ensures t == out.node.term && ComesToLead(n, out.node)
  {
    hide LogStep, VoteFrom, HoldsAll, Reigns, Lasting, MadeOk, CountsGrant, LogOk, InTerm, VotesRecorded, Ballots,
         HasQuorum, VotesTrue, Backers;
    assert n.role.Leader? ==> Wins(c, n.term, Actor(e));
  }

  lemma KeepsBallots(c: Cluster, h: History, e: Event, d: Cluster, g: History, n: Node, out: Out)
    requires Polling(c, h, e, d, g, n, out) && LeadersBacked(c) && Fresh(c, e)
    requires forall m :: m in d.net && m !in c.net && m.Vote? ==> AskOk(d, m)
    ensures Ballots(d, g)
  {
    hide BallotOk, AskOk, Seated, LogOk, Polling, LeadersBacked, Fresh;
    forall v, t | (v, t) in g.ballot ensures (v, t) in d.cast && LogOk(d.made, g.ballot[(v, t)]) {
      KeepsBallot(c, h, e, d, g, n, out, v, t);
    }
    forall v, t | (v, t) in d.cast ensures BallotOk(d, g, v, t) {
      if (v, t) in c.cast { KeepsOldVote(c, h, e, d, g, n, out, v, t); } else {
        NewCast(c, h, e, d, g, n, out, v, t);
        KeepsNewVote(c, h, e, d, g, n, out);
      }
    }
    forall m | m in d.net && m.Vote? ensures AskOk(d, m) {
      if m in c.net { KeepsAsk(c, h, e, d, g, n, out, m); }
    }
    forall t | t in d.won ensures Seated(d, g, t) {
      if t in c.won { KeepsSeat(c, h, e, d, g, n, out, t); } else {
        NewWon(c, h, e, d, g, n, out, t);
        NewSeat(c, h, e, d, g, n, out);
      }
    }
  }

  lemma StepPolls(c: Cluster, h: History, e: Event)
    requires Elected(c) && Matching(c) && Enabled(c, e) && Steady(c, e) && Orderly(c, h) && Ballots(c, h)
    ensures Polling(c, h, e, Step(c, e), Recorded(c, h, e), c.nodes[Actor(e)], NodeStep(c.nodes[Actor(e)], e, c.voters))
  {
    StepSettles(c, h, e);
    StepKeepsOrderly(c, h, e);
    StepMoves(c, e);
    hide NodeStep, Settling, Lasting, Ballots, VoteStep, Orderly, Recorded, PointRight, Matching, LeadersBacked,
         VotesRecorded;
  }

  lemma ActorSound(c: Cluster, e: Event)
    requires Matching(c) && Enabled(c, e)
    ensures Sound(c.nodes[Actor(e)])
  {
  }

  lemma StepKeepsBallots(c: Cluster, h: History, e: Event)
    requires Elected(c) && Matching(c) && Enabled(c, e) && Steady(c, e) && Orderly(c, h) && Ballots(c, h)
    ensures Ballots(Step(c, e), Recorded(c, h, e))
  {
    hide NodeStep, Settling, Lasting, Ballots, VoteStep, Orderly, Recorded, PointRight, Matching, LeadersBacked,
         VotesRecorded, Polling, Intact;
    var n, d := c.nodes[Actor(e)], Step(c, e);
    ActorSound(c, e);
    StepPolls(c, h, e);
    forall m | m in d.net && m !in c.net && m.Vote? ensures AskOk(d, m) {
      NodeStepAsks(n, e, c.voters, m);
      Named(c, Actor(e));
    }
    KeepsBallots(c, h, e, d, Recorded(c, h, e), n, NodeStep(n, e, c.voters));
  }
}
