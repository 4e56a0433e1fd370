/** What state machine safety needs to remember of a run, and the part of its proof about terms:
    which log a leader was elected with, how it grew, and which logs its voters had. */
module RaftHistory {
  import opened Raft
  import opened RaftElection
  import opened RaftDisk
  import opened RaftLog

  type Log = seq<Entry>

  /** `ballot`: the log a voter had when it voted in a term nobody led yet.  `elected` and `reign`:
      the leader's log when it came to lead a term, and as it last stood in it.  `electors`: the
      votes it came to lead with.  `acked`: how much of the leader's log a node has held. */
  datatype History = History(ballot: map<(nat, nat), Log>, elected: map<nat, Log>, reign: map<nat, Log>,
                             electors: map<nat, set<nat>>, acked: map<(nat, nat), nat>)

  const NO_HISTORY := History(map[], map[], map[], map[], map[])

  /** The append's consistency check passes. */
  predicate Accepts(n: Node, m: Msg)
    requires m.App?
  {
    m.term >= n.term && m.index <= |n.log| && (m.index > 0 ==> TermAt(n.log, m.index) == m.logTerm)
  }

  function Ack(h: History, v: nat, t: nat): nat {
    if (v, t) in h.acked then h.acked[(v, t)] else 0
  }

  predicate ComesToLead(n: Node, o: Node) {
    o.role.Leader? && !(n.role.Leader? && n.term == o.term)
  }

  /** After this step the node's whole log is part of the leader's. */
  predicate HoldsAll(n: Node, o: Node, e: Event) {
    o.role.Leader? || (e.Deliver? && e.m.App? && Accepts(n, e.m))
  }

  predicate FirstVote(c: Cluster, i: nat, o: Node) {
    o.vote != 0 && (i, o.term) !in c.cast && o.term !in c.won
  }

  function Recorded(c: Cluster, h: History, e: Event): History
    requires Actor(e) in c.nodes
  {
    var i := Actor(e);
    var n := c.nodes[i];
    var o := NodeStep(n, e, c.voters).node;
    History(if FirstVote(c, i, o) then h.ballot[(i, o.term) := o.log] else h.ballot,
            if ComesToLead(n, o) then h.elected[o.term := o.log] else h.elected,
            if o.role.Leader? then h.reign[o.term := o.log] else h.reign,
            if ComesToLead(n, o) then h.electors[o.term := o.votes] else h.electors,
            if HoldsAll(n, o, e)
            then h.acked[(i, o.term) := if Ack(h, i, o.term) < |o.log| then |o.log| else Ack(h, i, o.term)]
            else h.acked)
  }

  /** The checks the code lacks.  A vote or an answer counts only in the term it was given in.
      Only a node whose disk still has its log restarts.
      After an append, the log ends with the entries sent or with an entry of the leader's term.
      A heartbeat moves the commit index only of a log that ends with an entry of its term. */
  ghost predicate Careful(c: Cluster, e: Event)
    requires Actor(e) in c.nodes
  {
    var n := c.nodes[Actor(e)];
    Steady(c, e) && (e.Deliver? ==>
      && (e.m.AppResp? && n.role.Leader? && !e.m.reject ==> e.m.term >= n.term)
      && (e.m.App? && Accepts(n, e.m) ==> EndsRight(HandleApp(n, e.m).node.log, e.m))
      && (e.m.Heartbeat? && HandleHeartbeat(n, e.m).node.commit != n.commit ==> LastTerm(n.log) == e.m.term))
  }

  predicate EndsRight(log: Log, m: Msg)
    requires m.App?
  {
    |log| == m.index + |m.entries| || LastTerm(log) == m.term
  }

  // ---------------------------------------------------------------------- one node's step

  /** Where a vote comes from: kept, for itself in a new term, or for an up-to-date candidate. */
  ghost predicate VoteFrom(n: Node, o: Node, e: Event) {
    || o.vote == 0
    || (o.term == n.term && o.vote == n.vote)
    || (o.term > n.term && o.vote == n.id && o.log == n.log)
    || (e.Deliver? && e.m.Vote? && o.vote == e.m.from && o.term == e.m.term && o.log == n.log
        && UpToDate(n.log, e.m.index, e.m.logTerm))
  }

  lemma NodeStepVote(n: Node, e: Event, voters: set<nat>)
    requires Sound(n)
    ensures VoteFrom(n, NodeStep(n, e, voters).node, e)
  {
    hide PutEntries, PutLast, NoWorse, HasQuorum, LastTerm, TermAt, SendApps, Replayed, OnDisk,
         HandleApp, HandleAppResp, Propose, Beat;
    if e.Deliver? && e.m.App? {
      AppVotes(n, e.m);
    } else if e.Deliver? && e.m.AppResp? {
      AnswerVotes(n, e.m, voters, e.point, e.limit);
    } else if e.ProposeAt? {
      ProposeVotes(n, e.data, voters, e.point, e.limit);
    } else if e.BeatAt? {
      BeatVotes(n, voters, e.limit);
    }
  }

  /** A vote request tells the candidate's log; an accepted append is answered with the log's end. */
  lemma NodeStepAsks(n: Node, e: Event, voters: set<nat>, m: Msg)
    requires Sound(n) && m in NodeStep(n, e, voters).sent
    ensures var o := NodeStep(n, e, voters).node;
            && (m.Vote? ==> m.from == n.id && m.term == o.term && m.index == |o.log| && m.logTerm == LastTerm(o.log))
            && (m.AppResp? && !m.reject ==>
                  e.Deliver? && e.m.App? && Accepts(n, e.m) && m.from == n.id && m.term == o.term && m.index == |o.log|)
  {
    hide PutEntries, PutLast, NoWorse, HasQuorum, LastTerm, TermAt, SendApps, Replayed, OnDisk,
         HandleApp, HandleAppResp, Propose, Beat;
    if e.Deliver? && e.m.App? {
      AppVotes(n, e.m);
      if !m.reject { AppAnswers(n, e.m, m); }
    } else if e.Deliver? && e.m.AppResp? {
      AnswerVotes(n, e.m, voters, e.point, e.limit);
    } else if e.ProposeAt? {
      ProposeVotes(n, e.data, voters, e.point, e.limit);
    } else if e.BeatAt? {
      BeatVotes(n, voters, e.limit);
    }
  }

  lemma AppAnswers(n: Node, a: Msg, m: Msg)
    requires a.App? && m in HandleApp(n, a).sent && !m.reject
    requires m.AppResp?
    ensures Accepts(n, a) && m.from == n.id
    ensures m.term == HandleApp(n, a).node.term && m.index == |HandleApp(n, a).node.log|
  {
    hide PutEntries;
  }

  /** What a step does to the node's log. */
  ghost predicate LogStep(n: Node, o: Node, e: Event) {
    if e.ProposeAt? && n.role.Leader? then
      o.log == n.log + [Entry(n.term, e.data)] && o.role == n.role && o.term == n.term && o.vote == n.vote
    else if e.Deliver? && e.m.App? && Accepts(n, e.m) then
      o.log == PutEntries(n.log, e.m.index + 1, e.m.entries) && o.role.Follower? && o.term == e.m.term
    else o.log == n.log
  }

  lemma NodeStepGrows(n: Node, e: Event, voters: set<nat>)
    requires e.RestartAt? ==> Sound(n) && Intact(n)
    ensures LogStep(n, NodeStep(n, e, voters).node, e)
  {
    hide NodeStep, PutEntries, PutLast, TermAt, Sound, Intact;
    NodeStepLog(n, e, voters);
    if e.Deliver? && e.m.App? {
      AppDelivered(n, e, voters);
    } else if e.ProposeAt? {
      ProposeVotes(n, e.data, voters, e.point, e.limit);
      ProposeStep(n, e, voters);
    }
  }

  lemma ProposeStep(n: Node, e: Event, voters: set<nat>)
    requires e.ProposeAt?
    ensures NodeStep(n, e, voters) == Propose(n, e.data, voters, e.point, e.limit)
  {
  }

  // ------------------------------------------------------------------- the step, in parts

  /** One step of the cluster and its history, seen from the node that takes it. */
  ghost predicate Shape(c: Cluster, h: History, e: Event, d: Cluster, g: History, n: Node, o: Node) {
    var i := Actor(e);
    && i in c.nodes && n == c.nodes[i] && n.id == i && o.id == i && o.term >= n.term
    && d.voters == c.voters && d.nodes == c.nodes[i := o] && c.net <= d.net
    && d.cast == (if o.vote != 0 then c.cast[(i, o.term) := o.vote] else c.cast)
    && d.won == (if o.role.Leader? then c.won[o.term := i] else c.won)
    && d.made == (if e.ProposeAt? && n.role.Leader? then c.made[(|n.log| + 1, n.term) := o.log] else c.made)
    && g.ballot == (if FirstVote(c, i, o) then h.ballot[(i, o.term) := o.log] else h.ballot)
    && g.elected == (if ComesToLead(n, o) then h.elected[o.term := o.log] else h.elected)
    && g.reign == (if o.role.Leader? then h.reign[o.term := o.log] else h.reign)
    && g.electors == (if ComesToLead(n, o) then h.electors[o.term := o.votes] else h.electors)
    && g.acked == (if HoldsAll(n, o, e)
                   then h.acked[(i, o.term) := if Ack(h, i, o.term) < |o.log| then |o.log| else Ack(h, i, o.term)]
                   else h.acked)
    && LogStep(n, o, e) && VoteFrom(n, o, e)
  }

  lemma StepShape(c: Cluster, h: History, e: Event)
    requires NodesNamed(c) && Enabled(c, e) && Steady(c, e) && Sound(c.nodes[Actor(e)])
    ensures Shape(c, h, e, Step(c, e), Recorded(c, h, e), c.nodes[Actor(e)], Step(c, e).nodes[Actor(e)])
  {
    hide NodeStep, PointRight, LogStep, VoteFrom, CountsGrant, HasQuorum, Sound, Intact, Fresh, FirstVote, HoldsAll,
         ComesToLead;
    StepMoves(c, e);
    NodeStepGrows(c.nodes[Actor(e)], e, c.voters);
    NodeStepVote(c.nodes[Actor(e)], e, c.voters);
  }

  // ---------------------------------------------------------------------------- the reigns

  ghost predicate TermsUpTo(log: Log, t: nat) {
    forall j :: 0 <= j < |log| ==> log[j].term <= t
  }

  ghost predicate TermsBelow(log: Log, t: nat) {
    forall j :: 0 <= j < |log| ==> log[j].term < t
  }

  /** A leader adds entries of its term to a log of earlier terms. */
  ghost predicate ReignOk(made: Made, elected: Log, reign: Log, t: nat) {
    && elected <= reign && LogOk(made, reign) && TermsBelow(elected, t)
    && (forall j :: |elected| <= j < |reign| ==> reign[j].term == t)
  }

  ghost predicate MadeIn(made: Made, elected: Log, reign: Log, k: nat, t: nat) {
    (k, t) in made && |elected| < k <= |reign| && made[(k, t)] == reign[..k]
  }

  ghost predicate SameTerms(c: Cluster, h: History) {
    h.elected.Keys == c.won.Keys && h.reign.Keys == c.won.Keys && h.electors.Keys == c.won.Keys
  }

  ghost predicate Reigns(c: Cluster, h: History) {
    && SameTerms(c, h)
    && (forall t :: t in c.won ==> ReignOk(c.made, h.elected[t], h.reign[t], t))
    && (forall k, t :: (k, t) in c.made ==> t in c.won && MadeIn(c.made, h.elected[t], h.reign[t], k, t))
  }

  /** The leader's log is the one on record, and no log has an entry of a term to come. */
  ghost predicate InTerm(c: Cluster, h: History, n: Node) {
    && TermsUpTo(n.log, n.term)
    && (n.role.Leader? ==> n.term in h.reign && h.reign[n.term] == n.log)
  }

  ghost predicate Whole(made: Made, m: Msg, reign: Log)
    requires m.App?
  {
    Base(made, m.index, m.logTerm) + m.entries <= reign
  }

  ghost predicate AppsTold(c: Cluster, h: History) {
    forall m :: m in c.net && m.App? ==> m.term in h.reign && Whole(c.made, m, h.reign[m.term])
  }

  ghost predicate Orderly(c: Cluster, h: History) {
    Reigns(c, h) && AppsTold(c, h) && (forall i :: i in c.nodes ==> InTerm(c, h, c.nodes[i]))
  }

  // ------------------------------------------------------------------ what every step keeps

  /** A log on record that has no entry of a term nobody led. */
  lemma EarlierTerms(c: Cluster, log: Log, bound: nat, t: nat)
    requires MadeOk(c) && LogOk(c.made, log) && TermsUpTo(log, bound) && bound <= t && t !in c.won
    ensures TermsBelow(log, t)
  {
    forall j | 0 <= j < |log| ensures log[j].term < t {
      assert PrefixOf(c.made, log, j + 1);
    }
  }

  lemma ReignStays(made: Made, more: Made, elected: Log, reign: Log, t: nat)
    requires ReignOk(made, elected, reign, t) && Extends(made, more)
    ensures ReignOk(more, elected, reign, t)
  {
    MoreMade(made, more, reign);
    hide LogOk;
  }

  ghost predicate Settling(c: Cluster, h: History, e: Event, d: Cluster, g: History, n: Node, o: Node) {
    && Shape(c, h, e, d, g, n, o) && Reigns(c, h) && MadeOk(c) && InTerm(c, h, n) && Extends(c.made, d.made)
    && LogOk(c.made, n.log) && LogOk(d.made, o.log)
    && (ComesToLead(n, o) ==> o.term !in c.won)
  }

  lemma KeepsReign(c: Cluster, h: History, e: Event, d: Cluster, g: History, n: Node, o: Node, t: nat)
    requires Settling(c, h, e, d, g, n, o) && t in d.won
    ensures t in g.elected && t in g.reign && ReignOk(d.made, g.elected[t], g.reign[t], t)
  {
    hide LogOk, VoteFrom, FirstVote, HoldsAll, MadeIn, Extends;
    if !(o.role.Leader? && t == o.term) {
      ReignStays(c.made, d.made, h.elected[t], h.reign[t], t);
    } else if ComesToLead(n, o) {
      EarlierTerms(c, n.log, n.term, t);
    }
  }

  lemma KeepsMadeIn(c: Cluster, h: History, e: Event, d: Cluster, g: History, n: Node, o: Node, k: nat, t: nat)
    requires Settling(c, h, e, d, g, n, o) && SameTerms(d, g) && (k, t) in d.made
    ensures t in d.won && MadeIn(d.made, g.elected[t], g.reign[t], k, t)
  {
    hide LogOk, VoteFrom, FirstVote, HoldsAll, Accepts, PutEntries;
  }

  lemma KeepsReigns(c: Cluster, h: History, e: Event, d: Cluster, g: History, n: Node, o: Node)
    requires Settling(c, h, e, d, g, n, o)
    ensures Reigns(d, g)
  {
    hide ReignOk, MadeIn, Settling;
    KeepsTerms(c, h, e, d, g, n, o);
    forall t | t in d.won ensures ReignOk(d.made, g.elected[t], g.reign[t], t) {
      KeepsReign(c, h, e, d, g, n, o, t);
    }
    forall k, t | (k, t) in d.made ensures t in d.won && MadeIn(d.made, g.elected[t], g.reign[t], k, t) {
      KeepsMadeIn(c, h, e, d, g, n, o, k, t);
    }
  }

  lemma KeepsTerms(c: Cluster, h: History, e: Event, d: Cluster, g: History, n: Node, o: Node)
    requires Settling(c, h, e, d, g, n, o)
    ensures SameTerms(d, g)
  {
    hide LogOk, VoteFrom, FirstVote, HoldsAll, LogStep, MadeIn, ReignOk, Extends;
  }

  /** What is on record of a term stays; only the running leader's log grows. */
  ghost predicate Lasting(c: Cluster, h: History, g: History) {
    forall t :: t in c.won ==>
      && t in h.elected && t in g.elected && g.elected[t] == h.elected[t]
      && t in h.electors && t in g.electors && g.electors[t] == h.electors[t]
      && t in h.reign && t in g.reign && h.reign[t] <= g.reign[t]
  }

  lemma ReignsGrow(c: Cluster, h: History, e: Event, d: Cluster, g: History, n: Node, o: Node)
    requires Settling(c, h, e, d, g, n, o)
    ensures Lasting(c, h, g)
  {
    hide LogOk, VoteFrom, FirstVote, HoldsAll, MadeIn, ReignOk, Extends;
  }

  /** The parts of an append on the network and the log it meets, on one record. */
  lemma Appended(made: Made, n: Node, m: Msg, reign: Log)
    requires m.App? && Accepts(n, m) && LogOk(made, n.log) && AppOk(made, m) && Whole(made, m, reign)
    ensures var whole, log := Base(made, m.index, m.logTerm) + m.entries, PutEntries(n.log, m.index + 1, m.entries);
            && |whole| == m.index + |m.entries| && whole <= log && whole <= reign
            && (log == n.log || log == whole) && (whole <= n.log ==> log == n.log)
  {
    assert m.index > 0 ==> PrefixOf(made, n.log, m.index);
    assert n.log[..m.index] == Base(made, m.index, m.logTerm);
    AppendOk(made, n.log, m.index, m.entries);
    var whole := Base(made, m.index, m.logTerm) + m.entries;
    if whole <= n.log { AppendNothing(n.log, m.index, m.entries); }
  }

  /** Entries that are there already change nothing. */
  lemma {:induction false} AppendNothing(log: Log, j: nat, entries: Log)
    requires j <= |log| && log[..j] + entries <= log
    ensures PutEntries(log, j + 1, entries) == log
    decreases |entries|
  {
    if entries != [] {
      assert (log[..j] + entries)[j] == entries[0] == log[j];
      assert log[j := log[j]] == log;
      assert log[..j + 1] + entries[1..] == log[..j] + entries;
      AppendNothing(log, j + 1, entries[1..]);
    }
  }

  /** An append whose entries the log already has is answered with the end of the whole log,
      whatever follows those entries there. */
  lemma TailAnswered(n: Node, m: Msg)
    requires m.App? && Accepts(n, m) && n.log[..m.index] + m.entries <= n.log
    ensures HandleApp(n, m).node.log == n.log
    ensures HandleApp(n, m).sent == {AppResp(n.id, m.from, m.term, |n.log|, false)}
  {
    AppendNothing(n.log, m.index, m.entries);
  }

  /** So the answer is true of the leader's log if and only if that has an entry of the same term at
      the index answered. */
  lemma TailTrueIff(made: Made, n: Node, m: Msg, reign: Log)
    requires m.App? && Accepts(n, m) && LogOk(made, n.log) && AppOk(made, m) && LogOk(made, reign) && Whole(made, m, reign)
    ensures var log := HandleApp(n, m).node.log;
            log <= reign <==> |log| <= |reign| && TermAt(reign, |log|) == LastTerm(log)
  {
    hide PutLast;
    Appended(made, n, m, reign);
    var whole, log := Base(made, m.index, m.logTerm) + m.entries, HandleApp(n, m).node.log;
    if log == n.log && log != [] && |log| <= |reign| && TermAt(reign, |log|) == LastTerm(log) {
      SamePrefix(made, reign, log, |log|);
    }
  }

  lemma KeepsInTerm(c: Cluster, h: History, e: Event, d: Cluster, g: History, n: Node, o: Node)
    requires Settling(c, h, e, d, g, n, o) && Matching(c) && AppsTold(c, h) && (e.Deliver? ==> e.m in c.net)
    ensures InTerm(d, g, o)
  {
    hide LogOk, VoteFrom, FirstVote, HoldsAll, MadeIn, Extends, MadeOk, AppOk, Whole, FromLeader, PutEntries, Accepts,
         Sound, Matching, ReignOk;
    if e.Deliver? && e.m.App? && Accepts(n, e.m) {
      AppKnown(c, e.m);
      Appended(c.made, n, e.m, h.reign[e.m.term]);
      ReignUpTo(c, h, e.m.term);
    }
  }

  lemma AppKnown(c: Cluster, m: Msg)
    requires Matching(c) && m in c.net && m.App?
    ensures AppOk(c.made, m) && FromLeader(c, m)
  {
    hide AppOk, FromLeader, LogOk, MadeOk, Sound;
  }

  lemma ReignUpTo(c: Cluster, h: History, t: nat)
    requires Reigns(c, h) && t in h.reign
    ensures TermsUpTo(h.reign[t], t)
  {
    hide LogOk, MadeIn;
    assert ReignOk(c.made, h.elected[t], h.reign[t], t);
  }

  lemma OthersInTerm(c: Cluster, h: History, e: Event, d: Cluster, g: History, n: Node, o: Node, j: nat)
    requires Settling(c, h, e, d, g, n, o) && j in c.nodes && j != Actor(e) && InTerm(c, h, c.nodes[j])
    requires LeadersBacked(d)
    ensures InTerm(d, g, d.nodes[j])
  {
    hide LogOk, VoteFrom, FirstVote, HoldsAll, MadeIn, ReignOk, Extends, VotesTrue, HasQuorum, Backers, LogStep;
    assert o.role.Leader? ==> Wins(d, o.term, Actor(e));
  }

  lemma KeepsTold(c: Cluster, h: History, e: Event, m: Msg)
    requires Elected(c) && Matching(c) && Enabled(c, e) && m in Step(c, e).net && m.App?
    requires AppsTold(c, h) && Lasting(c, h, Recorded(c, h, e)) && LogOk(Step(c, e).made, Step(c, e).nodes[Actor(e)].log)
    ensures var g := Recorded(c, h, e); m.term in g.reign && Whole(Step(c, e).made, m, g.reign[m.term])
  {
    hide NodeStep, PointRight, LogOk, MadeOk, VotesTrue, VotesRecorded, LeadersBacked, Carries, Sound;
    var n, d, g := c.nodes[Actor(e)], Step(c, e), Recorded(c, h, e);
    MadeGrows(c, e);
    if m in c.net {
      assert FromLeader(c, m) && AppOk(c.made, m);
      assert Base(d.made, m.index, m.logTerm) == Base(c.made, m.index, m.logTerm);
    } else {
      NodeStepSends(n, e, c.voters, m);
      TellsOwn(d.made, m, d.nodes[Actor(e)].log);
    }
  }

  lemma TellsOwn(made: Made, m: Msg, log: Log)
    requires LogOk(made, log) && m.App? && Carries(m, log)
    ensures Whole(made, m, log)
  {
    var prev, count := m.index, |m.entries|;
    assert prev > 0 ==> PrefixOf(made, log, prev);
    assert log[..prev] + log[prev..prev + count] == log[..prev + count];
  }

  lemma StepSettles(c: Cluster, h: History, e: Event)
    requires Elected(c) && Matching(c) && Enabled(c, e) && Steady(c, e) && Orderly(c, h)
    ensures Settling(c, h, e, Step(c, e), Recorded(c, h, e), c.nodes[Actor(e)], Step(c, e).nodes[Actor(e)])
  {
    var n, d := c.nodes[Actor(e)], Step(c, e);
    StepKeepsElected(c, e);
    StepShape(c, h, e);
    MadeGrows(c, e);
    KeepsLogs(c, e, Actor(e));
    if ComesToLead(n, d.nodes[Actor(e)]) { FreshTerm(c, e); }
    hide NodeStep, Shape, Recorded, Step, LogOk, MadeOk, FromLeader, AppOk, PointRight, Elected, Steady, AppsTold,
         Extends, Sound;
    assert InTerm(c, h, n);
  }

  lemma StepKeepsOrderly(c: Cluster, h: History, e: Event)
    requires Elected(c) && Matching(c) && Enabled(c, e) && Steady(c, e) && Orderly(c, h)
    ensures Orderly(Step(c, e), Recorded(c, h, e)) && Lasting(c, h, Recorded(c, h, e))
  {
    hide NodeStep, Recorded, LogOk, MadeOk, FromLeader, AppOk, PointRight, Fresh, Intact, Sound, Whole, Reigns, InTerm;
    var i, d, g := Actor(e), Step(c, e), Recorded(c, h, e);
    var n, o := c.nodes[i], d.nodes[i];
    StepSettles(c, h, e);
    StepKeepsElected(c, e);
    KeepsReigns(c, h, e, d, g, n, o);
    ReignsGrow(c, h, e, d, g, n, o);
    forall j | j in d.nodes ensures InTerm(d, g, d.nodes[j]) {
      if j == i { KeepsInTerm(c, h, e, d, g, n, o); } else { OthersInTerm(c, h, e, d, g, n, o, j); }
    }
    forall m | m in d.net && m.App? ensures m.term in g.reign && Whole(d.made, m, g.reign[m.term]) {
      KeepsTold(c, h, e, m);
    }
  }
}
