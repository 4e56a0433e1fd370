/** Log matching: two logs that agree on the term at an index are equal up to it, over whole runs. */
module RaftLog {
  import opened Bytes
  import opened Raft
  import opened RaftElection
  import opened RaftDisk

  type Made = map<(nat, nat), seq<Entry>>

  /** The log up to its entry `k` is the one that entry was made with. */
  predicate PrefixOf(made: Made, log: seq<Entry>, k: nat)
    requires 0 < k <= |log|
  {
    (k, log[k - 1].term) in made && made[(k, log[k - 1].term)] == log[..k]
  }

  ghost predicate LogOk(made: Made, log: seq<Entry>) {
    forall k: nat :: 0 < k <= |log| ==> PrefixOf(made, log, k)
  }

  /** The log below an append message's entries. */
  function Base(made: Made, index: nat, term: nat): seq<Entry> {
    if index > 0 && (index, term) in made then made[(index, term)] else []
  }

  ghost predicate AppOk(made: Made, m: Msg)
    requires m.App?
  {
    |Base(made, m.index, m.logTerm)| == m.index && LogOk(made, Base(made, m.index, m.logTerm) + m.entries)
  }

  /** What each leader made: only in a term it won, no further than its log. */
  ghost predicate MadeOk(c: Cluster) {
    && (forall k, t :: (k, t) in c.made ==> t in c.won)
    && (forall i, k :: i in c.nodes && c.nodes[i].role.Leader? && (k, c.nodes[i].term) in c.made ==>
          k <= |c.nodes[i].log|)
  }

  ghost predicate FromLeader(c: Cluster, m: Msg) {
    m.App? || m.Heartbeat? ==> Wins(c, m.term, m.from) && m.from != m.to
  }

  /** The cached last term is right, and the disk has at least what the log has. */
  ghost predicate Sound(n: Node) {
    n.lastTerm == LastTerm(n.log) && OnDisk(n)
  }

  ghost predicate Matching(c: Cluster) {
    && MadeOk(c)
    && (forall i :: i in c.nodes ==> Sound(c.nodes[i]))
    && (forall i :: i in c.nodes ==> LogOk(c.made, c.nodes[i].log))
    && (forall m :: m in c.net ==> FromLeader(c, m))
    && (forall m :: m in c.net && m.App? ==> AppOk(c.made, m))
  }

  // --------------------------------------------------------------------- appending entries

  /** The heart of it: logs on one record with the same term at `k` are equal up to `k`. */
  lemma SamePrefix(made: Made, a: seq<Entry>, b: seq<Entry>, k: nat)
    requires LogOk(made, a) && LogOk(made, b) && k <= |a| && k <= |b|
    requires TermAt(a, k) == TermAt(b, k)
    ensures a[..k] == b[..k]
  {
    if k > 0 {
      assert PrefixOf(made, a, k) && PrefixOf(made, b, k);
    }
  }

  lemma PrefixOk(made: Made, log: seq<Entry>, k: nat)
    requires LogOk(made, log) && k <= |log|
    ensures LogOk(made, log[..k])
  {
    var p := log[..k];
    forall j: nat | 0 < j <= k ensures PrefixOf(made, p, j) {
      assert PrefixOf(made, log, j) && p[..j] == log[..j];
    }
  }

  /** An append leaves the log alone, or makes it the leader's up to the last entry sent. */
  lemma {:induction false} AppendOk(made: Made, log: seq<Entry>, j: nat, entries: seq<Entry>)
    requires j <= |log| && LogOk(made, log) && LogOk(made, log[..j] + entries)
    ensures var r := PutEntries(log, j + 1, entries);
            LogOk(made, r) && (r == log || r == log[..j] + entries) && log[..j] + entries <= r
    decreases |entries|
  {
    if entries == [] {
      assert log[..j] + entries == log[..j];
      return;
    }
    var e, whole := entries[0], log[..j] + entries;
    var next := PutEntry(log, j + 1, e);
    assert whole[..j + 1] == log[..j] + [e];
    if j < |log| && log[j].term == e.term {
      SamePrefix(made, log, whole, j + 1);
      assert next == log;
    } else {
      assert next == whole[..j + 1];
      PrefixOk(made, whole, j + 1);
    }
    assert next[..j + 1] + entries[1..] == whole;
    AppendOk(made, next, j + 1, entries[1..]);
  }

  lemma AppKeepsLog(made: Made, n: Node, m: Msg)
    requires m.App? && LogOk(made, n.log) && AppOk(made, m)
    ensures LogOk(made, HandleApp(n, m).node.log)
  {
    hide PutEntries, PutLast, Records;
    if m.term >= n.term && m.index <= |n.log| && (m.index > 0 ==> TermAt(n.log, m.index) == m.logTerm) {
      assert m.index > 0 ==> PrefixOf(made, n.log, m.index);
      assert n.log[..m.index] == Base(made, m.index, m.logTerm);
      AppendOk(made, n.log, m.index, m.entries);
    }
  }

  // ------------------------------------------------------------------ what every step keeps

  ghost predicate Extends(made: Made, more: Made) {
    forall k, t :: (k, t) in made ==> (k, t) in more && more[(k, t)] == made[(k, t)]
  }

  lemma MoreMade(made: Made, more: Made, log: seq<Entry>)
    requires LogOk(made, log) && Extends(made, more)
    ensures LogOk(more, log)
  {
    forall k: nat | 0 < k <= |log| ensures PrefixOf(more, log, k) {
      assert PrefixOf(made, log, k);
    }
  }

  /** No stale vote is counted, and only intact nodes restart. */
  ghost predicate Steady(c: Cluster, e: Event)
    requires Actor(e) in c.nodes
  {
    Fresh(c, e) && (e.RestartAt? ==> Intact(c.nodes[Actor(e)]))
  }

  /** A node's step other than a proposal or an append leaves its log alone; a leader's log only
      grows. */
  lemma NodeStepLog(n: Node, e: Event, voters: set<nat>)
    requires e.RestartAt? ==> Sound(n) && Intact(n)
    ensures !e.ProposeAt? && !(e.Deliver? && e.m.App?) ==> NodeStep(n, e, voters).node.log == n.log
    ensures e.ProposeAt? ==> NodeStep(n, e, voters).node.log
                             == if n.role.Leader? then n.log + [Entry(n.term, e.data)] else n.log
    ensures e.ProposeAt? ==> NodeStep(n, e, voters).node.role == n.role && NodeStep(n, e, voters).node.term == n.term
  {
    hide HasQuorum, NoWorse, TermAt, LastTerm, PutEntries, PutLast, SendApps, Restarted, Intact;
    SendsLeave();
    if e.RestartAt? { RestartExact(n); }
  }

  lemma AppDelivered(n: Node, e: Event, voters: set<nat>)
    requires e.Deliver? && e.m.App?
    ensures NodeStep(n, e, voters) == HandleApp(n, e.m)
  {
  }

  lemma NodeStepSound(n: Node, e: Event, voters: set<nat>)
    requires Sound(n) && (e.RestartAt? ==> Intact(n))
    ensures Sound(NodeStep(n, e, voters).node)
  {
    hide NodeStep, Intact, OnDisk, DiskStep, LastTerm;
    NodeStepDisk(n, e, voters);
    StepOnDisk(n, NodeStep(n, e, voters).node);
    if e.RestartAt? { RestartExact(n); }
    NodeStepLast(n, e, voters);
  }

  lemma NodeStepLast(n: Node, e: Event, voters: set<nat>)
    requires n.lastTerm == LastTerm(n.log)
    requires e.RestartAt? ==> Restarted(n).log == n.log && Restarted(n).lastTerm == n.lastTerm
    ensures var o := NodeStep(n, e, voters).node; o.lastTerm == LastTerm(o.log)
  {
    hide HasQuorum, NoWorse, PutEntries, PutLast, SendApps, Restarted, HandleApp, HandleAppResp, Propose, Beat,
         LastTerm;
    if e.Deliver? && e.m.App? {
      AppSound(n, e.m);
    } else if e.Deliver? && e.m.AppResp? {
      AnswerLeaves(n, e.m, voters, e.point, e.limit);
    } else if e.ProposeAt? {
      ProposeLast(n, e.data, voters, e.point, e.limit);
    } else if e.BeatAt? {
      BeatLeaves(n, voters, e.limit);
    }
  }

  lemma ProposeLast(n: Node, data: seq<byte>, voters: set<nat>, point: nat, limit: nat)
    requires n.lastTerm == LastTerm(n.log)
    ensures var o := Propose(n, data, voters, point, limit).node; o.lastTerm == LastTerm(o.log)
  {
    hide SendApps;
    SendsLeave();
  }

  lemma AppSound(n: Node, m: Msg)
    requires m.App? && n.lastTerm == LastTerm(n.log)
    ensures HandleApp(n, m).node.lastTerm == LastTerm(HandleApp(n, m).node.log)
  {
    hide PutEntries, PutLast;
    if m.index <= |n.log| { PutLastRight(n.log, n.lastTerm, m.index + 1, m.entries); }
  }

  /** The append carries a stretch of this log. */
  predicate Carries(m: Msg, log: seq<Entry>)
    requires m.App?
  {
    m.index + |m.entries| <= |log| && m.entries == log[m.index..m.index + |m.entries|] && m.logTerm == TermAt(log, m.index)
  }

  lemma SendsCarry(n: Node, to: set<nat>, limit: nat, m: Msg)
    requires m in SendApps(n, to, limit).sent
    ensures m.App? && m.from == n.id && m.to != n.id && m.term == n.term && m.commit == n.commit && Carries(m, n.log)
  {
    hide Batch, TermAt;
  }

  /** Appends and heartbeats come from leaders, go to others, and carry their log. */
  lemma NodeStepSends(n: Node, e: Event, voters: set<nat>, m: Msg)
    requires m in NodeStep(n, e, voters).sent && (m.App? || m.Heartbeat?)
    ensures var o := NodeStep(n, e, voters).node;
            && m.from == n.id && m.to != n.id && o.role.Leader? && m.term == o.term && m.commit <= o.commit
            && (m.App? ==> Carries(m, o.log))
  {
    hide HasQuorum, NoWorse, TermAt, LastTerm, PutEntries, PutLast, SendApps, Restarted, Carries;
    SendsLeave();
    if e.Deliver? && e.m.AppResp? {
      AnswerSends(n, e.m, voters, e.point, e.limit, m);
    } else if e.ProposeAt? {
      ProposeSends(n, e.data, voters, e.point, e.limit, m);
    } else if e.BeatAt? {
      BeatSends(n, voters, e.limit, m);
    }
  }

  lemma AnswerSends(n: Node, a: Msg, voters: set<nat>, point: nat, limit: nat, m: Msg)
    requires a.AppResp? && m in HandleAppResp(n, a, voters, point, limit).sent
    ensures var o := HandleAppResp(n, a, voters, point, limit).node;
            && m.App? && m.from == n.id && m.to != n.id && o.role.Leader?
            && m.term == o.term && m.commit <= o.commit && Carries(m, o.log)
  {
    hide TermAt, SendApps, Carries;
    SendsLeave();
    var x := n.(flight := n.flight - {a.from});
    if a.reject {
      var y := if a.index + 1 < NextOf(x, a.from) then x.(next := x.next[a.from := a.index + 1]) else x;
      var z := if a.index < MatchNoted(y, a.from) then y.(match_ := y.match_[a.from := a.index]) else y;
      SendsCarry(z, {a.from}, limit, m);
    } else {
      var y := x.(match_ := x.match_[a.from := a.index], next := x.next[a.from := a.index + 1]);
      SendsCarry(MaybeCommit(y, point), {a.from}, limit, m);
    }
  }

  lemma ProposeSends(n: Node, data: seq<byte>, voters: set<nat>, point: nat, limit: nat, m: Msg)
    requires m in Propose(n, data, voters, point, limit).sent
    ensures var o := Propose(n, data, voters, point, limit).node;
            && m.App? && m.from == n.id && m.to != n.id && o.role.Leader?
            && m.term == o.term && m.commit <= o.commit && Carries(m, o.log)
  {
    hide TermAt, SendApps, Carries;
    SendsLeave();
    var e := Entry(n.term, data);
    SendsCarry(n.(log := n.log + [e], lastTerm := n.term, disk := n.disk + [Stored(|n.log| + 1, e)]), voters, limit, m);
  }

  lemma BeatSends(n: Node, voters: set<nat>, limit: nat, m: Msg)
    requires m in Beat(n, voters, limit).sent
    ensures var o := Beat(n, voters, limit).node;
            && (m.App? || m.Heartbeat?) && m.from == n.id && m.to != n.id && o.role.Leader? && m.term == o.term
            && m.commit <= o.commit && (m.App? ==> Carries(m, o.log))
  {
    hide TermAt, SendApps, Carries;
    SendsLeave();
    var x := n.(flight := n.flight - (voters - {n.id}));
    if m in SendApps(x, voters, limit).sent { SendsCarry(x, voters, limit, m); }
  }

  /** A leader hears no append of its own term. */
  lemma LeaderNotAppended(c: Cluster, e: Event)
    requires Elected(c) && Matching(c) && Enabled(c, e) && e.Deliver? && e.m.App?
    requires Step(c, e).nodes[Actor(e)].role.Leader?
    ensures Step(c, e).nodes[Actor(e)] == c.nodes[Actor(e)]
  {
    hide VotesTrue, VotesRecorded, PutEntries, PutLast, HasQuorum, Backers, Sound;
    AppVotes(c.nodes[Actor(e)], e.m);
  }

  /** The record only grows: an entry is made once. */
  lemma MadeGrows(c: Cluster, e: Event)
    requires Elected(c) && Matching(c) && Enabled(c, e)
    ensures Extends(c.made, Step(c, e).made)
  {
    hide NodeStep, LogOk, AppOk, Elected, PointRight, Sound;
    var n := c.nodes[Actor(e)];
    if n.role.Leader? && (|n.log| + 1, n.term) in c.made {
      assert false;
    }
  }

  lemma LeaderGrows(c: Cluster, e: Event)
    requires Elected(c) && Matching(c) && Enabled(c, e) && Steady(c, e)
    requires var n, o := c.nodes[Actor(e)], Step(c, e).nodes[Actor(e)]; n.role.Leader? && o.role.Leader? && o.term == n.term
    ensures c.nodes[Actor(e)].log <= Step(c, e).nodes[Actor(e)].log
  {
    hide NodeStep, Elected, PointRight, MadeOk, LogOk, FromLeader, AppOk, Fresh, Intact, Sound;
    NodeStepLog(c.nodes[Actor(e)], e, c.voters);
    if e.Deliver? && e.m.App? { LeaderNotAppended(c, e); }
  }

  lemma KeepsMade(c: Cluster, e: Event)
    requires Elected(c) && Matching(c) && Enabled(c, e) && Steady(c, e) && Elected(Step(c, e))
    requires forall t :: t in c.won ==> Wins(Step(c, e), t, c.won[t])
    ensures MadeOk(Step(c, e))
  {
    hide NodeStep, Elected, LogOk, AppOk, PointRight, FromLeader, Sound, Fresh, Intact;
    var i, d := Actor(e), Step(c, e);
    var n, o := c.nodes[i], d.nodes[i];
    LeadersApart(d);
    NodeStepLog(n, e, c.voters);
    if o.role.Leader? && !(n.role.Leader? && o.term == n.term) {
      FreshTerm(c, e);
    } else if o.role.Leader? {
      LeaderGrows(c, e);
    }
  }

  /** A term has one leader, and it is on record. */
  lemma LeadersApart(d: Cluster)
    requires Elected(d)
    ensures forall i, j ::
              (i in d.nodes && j in d.nodes && d.nodes[i].role.Leader? && d.nodes[j].role.Leader?
               && d.nodes[i].term == d.nodes[j].term) ==> i == j
    ensures forall i :: i in d.nodes && d.nodes[i].role.Leader? ==> d.nodes[i].term in d.won
  {
    hide HasQuorum, VotesTrue, VotesRecorded, Backers;
    assert forall i :: i in d.nodes && d.nodes[i].role.Leader? ==> Wins(d, d.nodes[i].term, i);
  }

  /** A node that comes to lead leads a term nobody led. */
  lemma FreshTerm(c: Cluster, e: Event)
    requires Elected(c) && Enabled(c, e) && Elected(Step(c, e))
    requires forall t :: t in c.won ==> Wins(Step(c, e), t, c.won[t])
    requires var o := Step(c, e).nodes[Actor(e)]; var n := c.nodes[Actor(e)];
             o.role.Leader? && !(n.role.Leader? && o.term == n.term)
    ensures Step(c, e).nodes[Actor(e)].term !in c.won
  {
    hide NodeStep, PointRight, HasQuorum, VotesTrue, VotesRecorded, Backers, CountsGrant;
    StepMoves(c, e);
    var i, d := Actor(e), Step(c, e);
    var t := d.nodes[i].term;
    assert Wins(d, t, i);
    assert t !in c.won || Wins(c, t, i);
    assert !Wins(c, t, i);
  }

  lemma KeepsLogs(c: Cluster, e: Event, j: nat)
    requires Elected(c) && Matching(c) && Enabled(c, e) && Steady(c, e) && j in c.nodes
    ensures LogOk(Step(c, e).made, Step(c, e).nodes[j].log)
  {
    hide NodeStep, AppOk, PointRight, Elected, LogOk, MadeOk, FromLeader, HandleApp, Sound, Intact;
    var i, d := Actor(e), Step(c, e);
    var n := c.nodes[i];
    MadeGrows(c, e);
    NodeStepLog(n, e, c.voters);
    if j == i && e.Deliver? && e.m.App? {
      AppKeepsLog(c.made, n, e.m);
      AppDelivered(n, e, c.voters);
    }
    if j == i && e.ProposeAt? && n.role.Leader? {
      Proposed(c.made, d.made, n.log, d.nodes[i].log, n.term, e.data);
    } else {
      assert LogOk(c.made, d.nodes[j].log);
      MoreMade(c.made, d.made, d.nodes[j].log);
    }
  }

  lemma Proposed(made: Made, more: Made, log: seq<Entry>, longer: seq<Entry>, t: nat, data: seq<byte>)
    requires LogOk(made, log) && longer == log + [Entry(t, data)]
    requires Extends(made, more)
    requires (|log| + 1, t) in more && more[(|log| + 1, t)] == longer
    ensures LogOk(more, longer)
  {
    MoreMade(made, more, log);
    forall k: nat | 0 < k <= |longer| ensures PrefixOf(more, longer, k) {
      if k <= |log| {
        assert PrefixOf(more, log, k) && longer[..k] == log[..k];
      }
    }
  }

  lemma SentOk(made: Made, log: seq<Entry>, m: Msg)
    requires LogOk(made, log) && m.App? && Carries(m, log)
    ensures AppOk(made, m)
  {
    var prev, count := m.index, |m.entries|;
    assert prev > 0 ==> PrefixOf(made, log, prev);
    assert log[..prev] + log[prev..prev + count] == log[..prev + count];
    PrefixOk(made, log, prev + count);
  }

  lemma KeepsMessages(c: Cluster, e: Event, m: Msg)
    requires Elected(c) && Matching(c) && Enabled(c, e) && Steady(c, e) && m in Step(c, e).net
    requires forall t :: t in c.won ==> Wins(Step(c, e), t, c.won[t])
    ensures FromLeader(Step(c, e), m)
    ensures m.App? ==> AppOk(Step(c, e).made, m)
  {
    hide NodeStep, PointRight, Elected, LogOk, MadeOk, Sound, Intact, Fresh, Carries;
    var n, d := c.nodes[Actor(e)], Step(c, e);
    MadeGrows(c, e);
    if m in c.net {
      if m.App? { AppStays(c.made, d.made, m); }
    } else if m.App? || m.Heartbeat? {
      Named(c, Actor(e));
      NodeStepSends(n, e, c.voters, m);
      KeepsLogs(c, e, Actor(e));
      if m.App? { SentOk(d.made, d.nodes[Actor(e)].log, m); }
    }
  }

  lemma Named(c: Cluster, i: nat)
    requires Elected(c) && i in c.nodes
    ensures c.nodes[i].id == i
  {
    hide VotesRecorded, LeadersBacked;
  }

  lemma AppStays(made: Made, more: Made, m: Msg)
    requires m.App? && AppOk(made, m) && Extends(made, more)
    ensures AppOk(more, m)
  {
    hide LogOk;
    var base := Base(made, m.index, m.logTerm);
    assert Base(more, m.index, m.logTerm) == base;
    MoreMade(made, more, base + m.entries);
  }

  lemma StepKeepsMatching(c: Cluster, e: Event)
    requires Elected(c) && Matching(c) && Enabled(c, e) && Steady(c, e)
    ensures Elected(Step(c, e)) && Matching(Step(c, e))
    ensures Extends(c.made, Step(c, e).made)
  {
    hide Elected, NodeStep, MadeOk, LogOk, AppOk, FromLeader, PointRight, Fresh, Intact, Sound;
    StepKeepsElected(c, e);
    KeepsMade(c, e);
    MadeGrows(c, e);
    var d := Step(c, e);
    assert d.nodes.Keys == c.nodes.Keys;
    NodeStepSound(c.nodes[Actor(e)], e, c.voters);
    forall i | i in d.nodes ensures LogOk(d.made, d.nodes[i].log) { KeepsLogs(c, e, i); }
    forall m | m in d.net ensures FromLeader(d, m) && (m.App? ==> AppOk(d.made, m)) { KeepsMessages(c, e, m); }
  }

  // -------------------------------------------------------------------------- whole runs

  lemma InitialMatching(voters: set<nat>)
    ensures Matching(Initial(voters))
  {
  }

  /** A run in which no stale vote is counted and only intact nodes restart. */
  ghost predicate SteadyRun(c: Cluster, es: seq<Event>)
    decreases |es|
  {
    es != [] ==> Enabled(c, es[0]) && Steady(c, es[0]) && SteadyRun(Step(c, es[0]), es[1..])
  }

  lemma {:induction false} RunKeepsMatching(c: Cluster, es: seq<Event>)
    requires Elected(c) && Matching(c) && SteadyRun(c, es)
    ensures Elected(After(c, es)) && Matching(After(c, es)) && Extends(c.made, After(c, es).made)
    decreases |es|
  {
    hide Elected, Matching, Step, PointRight, Steady;
    if es != [] {
      StepKeepsMatching(c, es[0]);
      RunKeepsMatching(Step(c, es[0]), es[1..]);
    }
  }

  /** Log matching over a whole run: if the log of `i` at one time and the log of `j` at a later
      time hold the same term at `k`, they are equal up to `k`. */
  lemma LogMatching(voters: set<nat>, es: seq<Event>, more: seq<Event>, i: nat, j: nat, k: nat)
    requires 0 !in voters && SteadyRun(Initial(voters), es) && SteadyRun(After(Initial(voters), es), more)
    requires i in After(Initial(voters), es).nodes && j in After(After(Initial(voters), es), more).nodes
    requires var a, b := After(Initial(voters), es).nodes[i].log, After(After(Initial(voters), es), more).nodes[j].log;
             k <= |a| && k <= |b| && TermAt(a, k) == TermAt(b, k)
    ensures After(Initial(voters), es).nodes[i].log[..k] == After(After(Initial(voters), es), more).nodes[j].log[..k]
  {
    hide Initial, Elected, SteadyRun, After, LogOk, MadeOk, FromLeader, AppOk, TermAt;
    InitialElected(voters);
    InitialMatching(voters);
    RunKeepsMatching(Initial(voters), es);
    var c := After(Initial(voters), es);
    RunKeepsMatching(c, more);
    var d := After(c, more);
    MoreMade(c.made, d.made, c.nodes[i].log);
    SamePrefix(d.made, c.nodes[i].log, d.nodes[j].log, k);
  }

  /** If `i` leads `t`, its log starts with `log`. */
  ghost predicate Keeps(c: Cluster, t: nat, i: nat, log: seq<Entry>) {
    Wins(c, t, i) && (Leads(c, t, i) ==> log <= c.nodes[i].log)
  }

  lemma StepKeepsPrefix(c: Cluster, e: Event, t: nat, i: nat, log: seq<Entry>)
    requires Elected(c) && Matching(c) && Enabled(c, e) && Steady(c, e) && Keeps(c, t, i, log)
    ensures Keeps(Step(c, e), t, i, log)
  {
    hide NodeStep, Elected, PointRight, Matching, Fresh, Intact, Sound;
    StepKeepsElected(c, e);
    var d := Step(c, e);
    if Leads(d, t, i) && i == Actor(e) {
      if !Leads(c, t, i) {
        FreshTerm(c, e);
      } else {
        LeaderGrows(c, e);
      }
    }
  }

  lemma {:induction false} RunKeepsPrefix(c: Cluster, es: seq<Event>, t: nat, i: nat, log: seq<Entry>)
    requires Elected(c) && Matching(c) && SteadyRun(c, es) && Keeps(c, t, i, log)
    ensures Keeps(After(c, es), t, i, log)
    decreases |es|
  {
    hide Elected, Matching, Step, PointRight, Steady, Keeps;
    if es != [] {
      StepKeepsMatching(c, es[0]);
      StepKeepsPrefix(c, es[0], t, i, log);
      RunKeepsPrefix(Step(c, es[0]), es[1..], t, i, log);
    }
  }

  /** A leader only adds to its log while it leads. */
  lemma LeaderAppendsOnly(voters: set<nat>, es: seq<Event>, more: seq<Event>, t: nat, i: nat)
    requires 0 !in voters && SteadyRun(Initial(voters), es) && SteadyRun(After(Initial(voters), es), more)
    requires Leads(After(Initial(voters), es), t, i) && Leads(After(After(Initial(voters), es), more), t, i)
    ensures After(Initial(voters), es).nodes[i].log <= After(After(Initial(voters), es), more).nodes[i].log
  {
    hide Initial, SteadyRun, After, Matching, VotesTrue, VotesRecorded, HasQuorum, NodesNamed;
    InitialElected(voters);
    InitialMatching(voters);
    RunKeepsMatching(Initial(voters), es);
    var c := After(Initial(voters), es);
    RunKeepsPrefix(c, more, t, i, c.nodes[i].log);
  }

  /** What a heartbeat makes a follower commit is what the leader's log holds there exactly when
      the two logs have the same term at the new commit index; the handler does not ask. */
  lemma HeartbeatCommits(c: Cluster, i: nat, l: nat, m: Msg)
    requires Matching(c) && i in c.nodes && l in c.nodes && m.Heartbeat? && m.commit <= |c.nodes[l].log|
    requires HandleHeartbeat(c.nodes[i], m).node.commit > c.nodes[i].commit
    ensures var d, lead := HandleHeartbeat(c.nodes[i], m).node, c.nodes[l].log;
            d.commit <= |d.log| && d.commit <= |lead|
            && (d.log[..d.commit] == lead[..d.commit] <==> TermAt(d.log, d.commit) == TermAt(lead, d.commit))
  {
    var d, lead := HandleHeartbeat(c.nodes[i], m).node, c.nodes[l].log;
    var k := d.commit;
    BeatMoves(c.nodes[i], m);
    hide HandleHeartbeat, TermAt, Sound, FromLeader, AppOk, MadeOk, LogOk, PrefixOf;
    if TermAt(d.log, k) == TermAt(lead, k) {
      SamePrefix(c.made, d.log, lead, k);
    } else {
      TermsDiffer(d.log, lead, k);
    }
  }

  /** What a leader notes of a peer's answer, of whatever term, is true of the peer's log as that now
      stands exactly when both logs reach the index answered and have the same term there; the
      handler does not ask, and only an answer of its own term makes it sure. */
  lemma AnswerTrueIff(c: Cluster, l: nat, m: Msg, point: nat, limit: nat)
    requires Matching(c) && l in c.nodes && c.nodes[l].role.Leader? && m.AppResp? && !m.reject
    requires m.term <= c.nodes[l].term && m.from in c.voters && m.from in c.nodes
    ensures var o, log := HandleAppResp(c.nodes[l], m, c.voters, point, limit).node, c.nodes[m.from].log;
            var k := MatchNoted(o, m.from);
            && k == m.index && o.log == c.nodes[l].log
            && (k <= |o.log| && k <= |log| && o.log[..k] == log[..k]
                <==> k <= |o.log| && k <= |log| && TermAt(o.log, k) == TermAt(log, k))
  {
    var n, log, k := c.nodes[l], c.nodes[m.from].log, m.index;
    AnswerLeaves(n, m, c.voters, point, limit);
    AnswerMatch(n, m, c.voters, point, limit);
    hide HandleAppResp, TermAt, Sound, FromLeader, AppOk, MadeOk, LogOk, PrefixOf;
    if k <= |n.log| && k <= |log| {
      if TermAt(n.log, k) == TermAt(log, k) { SamePrefix(c.made, n.log, log, k); } else { TermsDiffer(n.log, log, k); }
    }
  }

  lemma AnswerMatch(n: Node, m: Msg, voters: set<nat>, point: nat, limit: nat)
    requires m.AppResp? && !m.reject && n.role.Leader? && m.term <= n.term && m.from in voters
    ensures MatchNoted(HandleAppResp(n, m, voters, point, limit).node, m.from) == m.index
  {
    hide SendApps, TermAt;
    SendsLeave();
  }

  lemma BeatMoves(n: Node, m: Msg)
    requires m.Heartbeat?
    ensures var d := HandleHeartbeat(n, m).node;
            d.log == n.log && (d.commit > n.commit ==> 0 < d.commit <= |n.log| && d.commit <= m.commit)
  {
  }

  lemma TermsDiffer(a: seq<Entry>, b: seq<Entry>, k: nat)
    requires k <= |a| && k <= |b| && TermAt(a, k) != TermAt(b, k)
    ensures a[..k] != b[..k]
  {
    assert a[..k][k - 1] == a[k - 1] && b[..k][k - 1] == b[k - 1];
  }
}
