/** A cluster of Raft nodes over a network that may delay, repeat, reorder and drop messages, and
    the proof that a term has one leader.  Every message ever sent stays in `net`; delivering one
    does not take it out. */
module RaftElection {
  import opened Bytes
  import opened Raft

  /** `cast`, `won` and `made` record the past and steer nothing: who voted for whom in which
      term, who led which term, and the log up to each entry when its leader made it. */
  datatype Cluster = Cluster(voters: set<nat>, nodes: map<nat, Node>, net: set<Msg>,
                             cast: map<(nat, nat), nat>, won: map<nat, nat>,
                             made: map<(nat, nat), seq<Entry>>)

  /** Timeouts, leadership transfer, proposals, heartbeats, delivery and restart.  A restart finds the
      term, vote, commit index and entries that the code stored before it sent any message. */
  datatype Event =
    | HupAt(at: nat, preVote: bool)
    | TransferAt(at: nat)
    | ProposeAt(at: nat, data: seq<byte>, point: nat, limit: nat)
    | BeatAt(at: nat, limit: nat)
    | Deliver(m: Msg, busy: bool, point: nat, limit: nat)
    | RestartAt(at: nat)

  function Actor(e: Event): nat {
    if e.Deliver? then e.m.to else e.at
  }

  ghost function Initial(voters: set<nat>): Cluster {
    Cluster(voters, map i | i in voters :: NewNode(i), {}, map[], map[], map[])
  }

  function Received(n: Node, m: Msg, voters: set<nat>, busy: bool, point: nat, limit: nat): Out {
    match m
    case Vote(_, _, _, _, _) => HandleVote(n, m)
    case VoteResp(_, _, _, _) => HandleVoteResp(n, m, voters)
    case PreVote(_, _, _, _, _) => HandlePreVote(n, m, busy)
    case PreVoteResp(_, _, _, _) => HandlePreVoteResp(n, m, voters)
    case App(_, _, _, _, _, _, _) => HandleApp(n, m)
    case AppResp(_, _, _, _, _) => HandleAppResp(n, m, voters, point, limit)
    case Heartbeat(_, _, _, _) => HandleHeartbeat(n, m)
  }

  function NodeStep(n: Node, e: Event, voters: set<nat>): Out {
    match e
    case HupAt(_, preVote) => Hup(n, voters, preVote)
    case TransferAt(_) => TimeoutNow(n, voters)
    case ProposeAt(_, data, point, limit) => Propose(n, data, voters, point, limit)
    case BeatAt(_, limit) => Beat(n, voters, limit)
    case Deliver(m, busy, point, limit) => Received(n, m, voters, busy, point, limit)
    case RestartAt(_) => Out(Restarted(n), {})
  }

  /** The commit point the event carries is the one the code computes at that place. */
  ghost predicate PointRight(n: Node, e: Event, voters: set<nat>) {
    match e
    case ProposeAt(_, data, point, _) =>
      n.role.Leader? ==> IsCommitPoint(n.(log := n.log + [Entry(n.term, data)]), voters, point)
    case Deliver(m, _, point, _) =>
      m.AppResp? && !m.reject ==> IsCommitPoint(n.(match_ := n.match_[m.from := m.index]), voters, point)
    case _ => true
  }

  ghost predicate Enabled(c: Cluster, e: Event) {
    && Actor(e) in c.nodes
    && (e.Deliver? ==> e.m in c.net)
    && PointRight(c.nodes[Actor(e)], e, c.voters)
  }

  /** Every vote a candidate counts was granted in its own term. */
  predicate Fresh(c: Cluster, e: Event)
    requires Actor(e) in c.nodes
  {
    var n := c.nodes[Actor(e)];
    e.Deliver? && e.m.VoteResp? && !e.m.reject && n.role.Candidate? ==> e.m.term >= n.term
  }

  function Step(c: Cluster, e: Event): Cluster
    requires Actor(e) in c.nodes
  {
    var i := Actor(e);
    var n := c.nodes[i];
    var o := NodeStep(n, e, c.voters);
    Cluster(c.voters, c.nodes[i := o.node], c.net + o.sent,
            if o.node.vote != 0 then c.cast[(i, o.node.term) := o.node.vote] else c.cast,
            if o.node.role.Leader? then c.won[o.node.term := i] else c.won,
            if e.ProposeAt? && n.role.Leader? then c.made[(|n.log| + 1, n.term) := o.node.log] else c.made)
  }

  /** `es` is a run from `c` in which no stale vote is counted. */
  ghost predicate IsRun(c: Cluster, es: seq<Event>)
    decreases |es|
  {
    es != [] ==> Enabled(c, es[0]) && Fresh(c, es[0]) && IsRun(Step(c, es[0]), es[1..])
  }

  function After(c: Cluster, es: seq<Event>): Cluster
    decreases |es|
  {
    if es == [] || Actor(es[0]) !in c.nodes then c else After(Step(c, es[0]), es[1..])
  }

  // ---------------------------------------------------------------------- one node's step

  /** What any step of a node does to its vote, its role and the grants it sends. */
  ghost predicate VoteStep(n: Node, o: Out, e: Event, voters: set<nat>) {
    && o.node.id == n.id && o.node.term >= n.term
    && (o.node.term == n.term && n.vote != 0 ==> o.node.vote == n.vote)
    && (o.node.role.Candidate? || o.node.role.Leader? ==>
          || (o.node.term > n.term && o.node.vote == n.id && o.node.votes == {n.id})
          || (o.node.term == n.term && !n.role.Follower? && !n.role.PreCandidate?
              && (n.role.Leader? ==> o.node.role.Leader?) && CountsGrant(n, o.node, e)))
    && (o.node.role.Leader? ==> (n.role.Leader? && o.node.term == n.term) || HasQuorum(voters, o.node.votes))
    && (forall m :: m in o.sent && m.VoteResp? && !m.reject ==>
          m.from == n.id && m.term == o.node.term && m.to == o.node.vote && m.to != 0)
    && (forall m :: m in o.sent ==> m.from == n.id)
  }

  /** The votes stay, or one grant that was delivered in this step is added to a candidate's. */
  predicate CountsGrant(n: Node, after: Node, e: Event) {
    || after.votes == n.votes
    || (n.role.Candidate? && e.Deliver? && e.m.VoteResp? && !e.m.reject && e.m.term <= n.term
        && after.votes == n.votes + {e.m.from})
  }

  lemma NodeStepVotes(n: Node, e: Event, voters: set<nat>)
    requires e.Deliver? && e.m.Vote? ==> e.m.from != 0
    ensures VoteStep(n, NodeStep(n, e, voters), e, voters)
  {
    hide NoWorse, HasQuorum, TermAt, Replayed, HandleAppResp, HandleApp, Propose, Beat, Hup, TimeoutNow,
         HandleVote, HandleVoteResp, HandlePreVoteResp;
    if e.Deliver? && e.m.App? {
      AppVotes(n, e.m);
    } else if e.Deliver? && e.m.Vote? {
      VoteVotes(n, e, voters);
    } else if e.Deliver? && (e.m.VoteResp? || e.m.PreVoteResp?) {
      CountVotes(n, e, voters);
    } else if e.HupAt? || e.TransferAt? {
      StandVotes(n, e, voters);
    } else if e.Deliver? && e.m.AppResp? {
      AnswerVotes(n, e.m, voters, e.point, e.limit);
    } else if e.ProposeAt? {
      ProposeVotes(n, e.data, voters, e.point, e.limit);
    } else if e.BeatAt? {
      BeatVotes(n, voters, e.limit);
    }
  }

  lemma VoteVotes(n: Node, e: Event, voters: set<nat>)
    requires e.Deliver? && e.m.Vote? && e.m.from != 0
    ensures VoteStep(n, HandleVote(n, e.m), e, voters)
  {
    hide NoWorse, HasQuorum;
  }

  lemma CountVotes(n: Node, e: Event, voters: set<nat>)
    requires e.Deliver? && (e.m.VoteResp? || e.m.PreVoteResp?)
    ensures VoteStep(n, NodeStep(n, e, voters), e, voters)
  {
    hide NoWorse, HasQuorum, HandleAppResp, HandleApp, Propose, Beat, Hup, TimeoutNow, HandleVote, HandlePreVote,
         HandleHeartbeat, Replayed;
  }

  lemma StandVotes(n: Node, e: Event, voters: set<nat>)
    requires e.HupAt? || e.TransferAt?
    ensures VoteStep(n, NodeStep(n, e, voters), e, voters)
  {
    hide NoWorse, HasQuorum, Received, Propose, Beat, Replayed;
  }

  /** Same term, vote, role and votes, and nothing sent but appends and heartbeats of its own. */
  ghost predicate Quiet(n: Node, o: Out) {
    && o.node.id == n.id && o.node.term == n.term && o.node.vote == n.vote
    && o.node.role == n.role && o.node.votes == n.votes
    && (forall m :: m in o.sent ==> (m.App? || m.Heartbeat?) && m.from == n.id)
  }

  lemma SendsQuiet(n: Node, to: set<nat>, limit: nat)
    ensures Quiet(n, SendApps(n, to, limit)) && SendApps(n, to, limit).node == n.(flight := SendApps(n, to, limit).node.flight)
    ensures forall m :: m in SendApps(n, to, limit).sent ==> m.App?
  {
    hide CanSend, Batch, TermAt;
  }

  lemma AnswerVotes(n: Node, m: Msg, voters: set<nat>, point: nat, limit: nat)
    requires m.AppResp?
    ensures var o := HandleAppResp(n, m, voters, point, limit);
            Quiet(n, o) || o == Out(BecomeFollower(n, m.term), {})
  {
    hide SendApps, TermAt;
    if n.role.Leader? && m.term <= n.term && m.from in voters {
      var a := n.(flight := n.flight - {m.from});
      if m.reject {
        var b := if m.index + 1 < NextOf(a, m.from) then a.(next := a.next[m.from := m.index + 1]) else a;
        var d := if m.index < MatchNoted(b, m.from) then b.(match_ := b.match_[m.from := m.index]) else b;
        SendsQuiet(d, {m.from}, limit);
      } else {
        var b := a.(match_ := a.match_[m.from := m.index], next := a.next[m.from := m.index + 1]);
        SendsQuiet(MaybeCommit(b, point), {m.from}, limit);
      }
    }
  }

  lemma ProposeVotes(n: Node, data: seq<byte>, voters: set<nat>, point: nat, limit: nat)
    ensures Quiet(n, Propose(n, data, voters, point, limit))
  {
    hide SendApps, TermAt;
    var e := Entry(n.term, data);
    SendsQuiet(n.(log := n.log + [e], lastTerm := n.term, disk := n.disk + [Stored(|n.log| + 1, e)]), voters, limit);
  }

  lemma BeatVotes(n: Node, voters: set<nat>, limit: nat)
    ensures Quiet(n, Beat(n, voters, limit))
  {
    hide SendApps, TermAt;
    SendsQuiet(n.(flight := n.flight - (voters - {n.id})), voters, limit);
  }

  lemma AppVotes(n: Node, m: Msg)
    requires m.App?
    ensures var o := HandleApp(n, m);
            (o.node.role.Follower? || o.node == n) && o.node.id == n.id && o.node.term == Max(n.term, m.term)
    ensures HandleApp(n, m).node.vote == if m.term > n.term then 0 else n.vote
    ensures forall r :: r in HandleApp(n, m).sent ==> r.AppResp? && r.from == n.id
  {
    hide PutEntries, PutLast, TermAt;
  }

  // ------------------------------------------------------------------ what every step keeps

  /** Voter `v` gave its vote in term `t` to `i`. */
  predicate CastFor(c: Cluster, v: nat, t: nat, i: nat) {
    (v, t) in c.cast && c.cast[(v, t)] == i
  }

  function Backers(c: Cluster, t: nat, i: nat): set<nat> {
    set v | v in c.voters && CastFor(c, v, t, i)
  }

  ghost predicate NodesNamed(c: Cluster) {
    && c.nodes.Keys == c.voters && 0 !in c.voters
    && (forall i :: i in c.nodes ==> c.nodes[i].id == i)
    && (forall m :: m in c.net ==> m.from in c.voters)
  }

  /** A vote is on record, and the record of the running term is the vote held. */
  ghost predicate VotesRecorded(c: Cluster) {
    && (forall i :: i in c.nodes && c.nodes[i].vote != 0 ==> CastFor(c, i, c.nodes[i].term, c.nodes[i].vote))
    && (forall v, t :: (v, t) in c.cast ==>
          c.cast[(v, t)] != 0 && v in c.nodes && t <= c.nodes[v].term
          && (t == c.nodes[v].term ==> c.nodes[v].vote == c.cast[(v, t)]))
    && (forall m :: m in c.net && m.VoteResp? && !m.reject ==> CastFor(c, m.from, m.term, m.to))
  }

  /** Every vote a candidate or leader counts was cast for it in its term. */
  ghost predicate VotesTrue(c: Cluster, n: Node) {
    n.role.Candidate? || n.role.Leader? ==> forall v :: v in n.votes ==> CastFor(c, v, n.term, n.id)
  }

  ghost predicate LeadersBacked(c: Cluster) {
    && (forall i :: i in c.nodes ==> VotesTrue(c, c.nodes[i]))
    && (forall i :: i in c.nodes && c.nodes[i].role.Leader? ==> Wins(c, c.nodes[i].term, i))
    && (forall t :: t in c.won ==> HasQuorum(c.voters, Backers(c, t, c.won[t])))
    && (forall t :: t in c.won ==> c.won[t] in c.nodes && t <= c.nodes[c.won[t]].term)
    && (forall i :: i in c.nodes && c.nodes[i].role.Candidate? ==> !Wins(c, c.nodes[i].term, i))
  }

  predicate Wins(c: Cluster, t: nat, i: nat) {
    t in c.won && c.won[t] == i
  }

  ghost predicate Elected(c: Cluster) {
    NodesNamed(c) && VotesRecorded(c) && LeadersBacked(c)
  }

  /** What a step with this effect on the node does to the cluster's record of votes. */
  ghost predicate Moves(c: Cluster, d: Cluster, o: Out, e: Event) {
    && Actor(e) in c.nodes && d.voters == c.voters
    && d.nodes == c.nodes[Actor(e) := o.node] && d.net == c.net + o.sent
    && d.cast == (if o.node.vote != 0 then c.cast[(Actor(e), o.node.term) := o.node.vote] else c.cast)
    && d.won == (if o.node.role.Leader? then c.won[o.node.term := Actor(e)] else c.won)
    && VoteStep(c.nodes[Actor(e)], o, e, c.voters)
  }

  lemma StepMoves(c: Cluster, e: Event)
    requires NodesNamed(c) && Enabled(c, e)
    ensures Moves(c, Step(c, e), NodeStep(c.nodes[Actor(e)], e, c.voters), e)
  {
    hide NodeStep, VoteStep;
    NodeStepVotes(c.nodes[Actor(e)], e, c.voters);
  }

  lemma KeepsNames(c: Cluster, d: Cluster, o: Out, e: Event)
    requires Moves(c, d, o, e) && NodesNamed(c)
    ensures NodesNamed(d)
  {
    hide HasQuorum, CountsGrant;
  }

  /** A recorded vote is never changed. */
  lemma CastStays(c: Cluster, d: Cluster, o: Out, e: Event, v: nat, t: nat, i: nat)
    requires Moves(c, d, o, e) && NodesNamed(c) && VotesRecorded(c) && CastFor(c, v, t, i)
    ensures CastFor(d, v, t, i)
  {
    hide HasQuorum, CountsGrant;
    if v == Actor(e) && t == o.node.term && o.node.vote != 0 {
      assert t <= c.nodes[v].term;
    }
  }

  lemma KeepsVotes(c: Cluster, d: Cluster, o: Out, e: Event)
    requires Moves(c, d, o, e) && NodesNamed(c) && VotesRecorded(c)
    requires e.Deliver? ==> e.m in c.net
    ensures VotesRecorded(d)
  {
    hide HasQuorum, CountsGrant;
    forall m | m in d.net && m.VoteResp? && !m.reject ensures CastFor(d, m.from, m.term, m.to) {
      if m in c.net {
        CastStays(c, d, o, e, m.from, m.term, m.to);
      }
    }
  }

  lemma BackersStay(c: Cluster, d: Cluster, o: Out, e: Event, t: nat, i: nat)
    requires Moves(c, d, o, e) && NodesNamed(c) && VotesRecorded(c)
    ensures HasQuorum(c.voters, Backers(c, t, i)) ==> HasQuorum(d.voters, Backers(d, t, i))
  {
    forall v | v in Backers(c, t, i) ensures v in Backers(d, t, i) {
      CastStays(c, d, o, e, v, t, i);
    }
    SubsetSize(c.voters * Backers(c, t, i), d.voters * Backers(d, t, i));
  }

  /** Two quorums in one term back the same candidate. */
  lemma OneWinner(c: Cluster, t: nat, i: nat, j: nat)
    requires HasQuorum(c.voters, Backers(c, t, i)) && HasQuorum(c.voters, Backers(c, t, j))
    ensures i == j
  {
    var v := QuorumsMeet(c.voters, Backers(c, t, i), Backers(c, t, j));
  }

  lemma KeepsVotesTrue(c: Cluster, d: Cluster, o: Out, e: Event)
    requires Moves(c, d, o, e) && Elected(c) && Enabled(c, e) && Fresh(c, e)
    ensures VotesTrue(d, o.node)
  {
    hide HasQuorum, PointRight, Wins;
    var n := c.nodes[Actor(e)];
    if o.node.role.Candidate? || o.node.role.Leader? {
      forall v | v in o.node.votes ensures CastFor(d, v, o.node.term, o.node.id) {
        if o.node.term == n.term {
          assert CastFor(c, v, n.term, n.id);
          CastStays(c, d, o, e, v, n.term, n.id);
        }
      }
    }
  }

  lemma OthersTrue(c: Cluster, d: Cluster, o: Out, e: Event, j: nat)
    requires Moves(c, d, o, e) && Elected(c) && j in c.nodes && j != Actor(e)
    ensures VotesTrue(d, d.nodes[j])
  {
    hide HasQuorum, Wins, CountsGrant;
    var n := c.nodes[j];
    if n.role.Candidate? || n.role.Leader? {
      forall v | v in n.votes ensures CastFor(d, v, n.term, n.id) {
        CastStays(c, d, o, e, v, n.term, n.id);
      }
    }
  }

  /** A node that leads after the step has a quorum behind it. */
  lemma LeaderBacked(c: Cluster, d: Cluster, o: Out, e: Event)
    requires Moves(c, d, o, e) && Elected(c) && o.node.role.Leader? && VotesTrue(d, o.node)
    ensures HasQuorum(d.voters, Backers(d, o.node.term, o.node.id))
  {
    var n, t := c.nodes[Actor(e)], o.node.term;
    if n.role.Leader? && t == n.term {
      BackersStay(c, d, o, e, t, n.id);
    } else {
      SubsetSize(d.voters * o.node.votes, d.voters * Backers(d, t, o.node.id));
    }
  }

  /** The leader of a term in the record stays, and is the one that leads. */
  lemma WinnerStays(c: Cluster, d: Cluster, o: Out, e: Event)
    requires Moves(c, d, o, e) && Elected(c) && o.node.role.Leader? && VotesTrue(d, o.node)
    ensures o.node.term in c.won ==> c.won[o.node.term] == Actor(e)
    ensures HasQuorum(d.voters, Backers(d, o.node.term, Actor(e)))
  {
    hide HasQuorum, Backers, CountsGrant, VotesTrue;
    LeaderBacked(c, d, o, e);
    if o.node.term in c.won {
      BackersStay(c, d, o, e, o.node.term, c.won[o.node.term]);
      OneWinner(d, o.node.term, o.node.id, c.won[o.node.term]);
    }
  }

  lemma KeepsWins(c: Cluster, d: Cluster, o: Out, e: Event)
    requires Moves(c, d, o, e) && NodesNamed(c) && LeadersBacked(c)
    requires o.node.role.Leader? && o.node.term in c.won ==> c.won[o.node.term] == Actor(e)
    ensures forall i :: i in d.nodes && d.nodes[i].role.Leader? ==> Wins(d, d.nodes[i].term, i)
    ensures forall t :: t in d.won ==> d.won[t] in d.nodes && t <= d.nodes[d.won[t]].term
    ensures forall i :: i in d.nodes && d.nodes[i].role.Candidate? ==> !Wins(d, d.nodes[i].term, i)
    ensures forall t :: t in c.won ==> Wins(d, t, c.won[t])
  {
    hide HasQuorum, Backers, CountsGrant, VotesTrue;
  }

  lemma KeepsLeaders(c: Cluster, d: Cluster, o: Out, e: Event)
    requires Moves(c, d, o, e) && Elected(c) && Enabled(c, e) && Fresh(c, e)
    ensures LeadersBacked(d)
    ensures forall t :: t in c.won ==> Wins(d, t, c.won[t])
  {
    hide HasQuorum, Backers, CountsGrant, VotesTrue, PointRight, VoteStep, VotesRecorded, Fresh;
    KeepsVotesTrue(c, d, o, e);
    if o.node.role.Leader? {
      WinnerStays(c, d, o, e);
    }
    KeepsWins(c, d, o, e);
    forall j | j in d.nodes ensures VotesTrue(d, d.nodes[j]) {
      if j != Actor(e) { OthersTrue(c, d, o, e, j); }
    }
    forall t | t in d.won ensures HasQuorum(d.voters, Backers(d, t, d.won[t])) {
      if t in c.won { BackersStay(c, d, o, e, t, c.won[t]); }
    }
  }

  lemma StepKeepsElected(c: Cluster, e: Event)
    requires Elected(c) && Enabled(c, e) && Fresh(c, e)
    ensures Elected(Step(c, e))
    ensures forall t :: t in c.won ==> Wins(Step(c, e), t, c.won[t])
  {
    var o, d := NodeStep(c.nodes[Actor(e)], e, c.voters), Step(c, e);
    StepMoves(c, e);
    KeepsNames(c, d, o, e);
    KeepsVotes(c, d, o, e);
    KeepsLeaders(c, d, o, e);
    hide NodeStep, VoteStep, LeadersBacked, VotesRecorded, PointRight;
  }

  // -------------------------------------------------------------------------- whole runs

  lemma InitialElected(voters: set<nat>)
    requires 0 !in voters
    ensures Elected(Initial(voters))
  {
  }

  lemma {:induction false} RunKeepsElected(c: Cluster, es: seq<Event>)
    requires Elected(c) && IsRun(c, es)
    ensures Elected(After(c, es))
    ensures forall t :: t in c.won ==> Wins(After(c, es), t, c.won[t])
    decreases |es|
  {
    hide Elected, Step, PointRight, Fresh;
    if es != [] {
      StepKeepsElected(c, es[0]);
      RunKeepsElected(Step(c, es[0]), es[1..]);
    }
  }

  predicate Leads(c: Cluster, t: nat, i: nat) {
    i in c.nodes && c.nodes[i].role.Leader? && c.nodes[i].term == t
  }

  /** Election safety: over a whole run, however far apart in time, a term has one leader. */
  lemma ElectionSafety(voters: set<nat>, es: seq<Event>, more: seq<Event>, t: nat, i: nat, j: nat)
    requires 0 !in voters && IsRun(Initial(voters), es) && IsRun(After(Initial(voters), es), more)
    requires Leads(After(Initial(voters), es), t, i)
    requires Leads(After(After(Initial(voters), es), more), t, j)
    ensures i == j
  {
    InitialElected(voters);
    RunKeepsElected(Initial(voters), es);
    var c := After(Initial(voters), es);
    RunKeepsElected(c, more);
    hide Initial, After, IsRun, VotesTrue, HasQuorum, VotesRecorded, NodesNamed;
  }

  /** The one way to lose it: a grant from an earlier term, delivered to a candidate.  The votes
      the candidate then counts are all its own exactly when that voter also voted for it in the
      running term. */
  lemma StaleGrant(c: Cluster, e: Event)
    requires Elected(c) && Enabled(c, e) && !Fresh(c, e)
    ensures VotesTrue(Step(c, e), Step(c, e).nodes[Actor(e)])
       <==> CastFor(c, e.m.from, c.nodes[Actor(e)].term, Actor(e))
  {
    var n, d, o := c.nodes[Actor(e)], Step(c, e), NodeStep(c.nodes[Actor(e)], e, c.voters);
    StepMoves(c, e);
    assert o.node.votes == n.votes + {e.m.from} && o.node.term == n.term && o.node.vote == n.vote;
    if CastFor(c, e.m.from, n.term, n.id) {
      forall v | v in o.node.votes ensures CastFor(d, v, n.term, n.id) {
        CastStays(c, d, o, e, v, n.term, n.id);
      }
    } else {
      assert e.m.from in o.node.votes;
      assert d.cast == c.cast;
    }
  }
}
