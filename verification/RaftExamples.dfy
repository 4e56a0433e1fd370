/** Runs of three nodes that show what each missing check lets happen. */
module RaftExamples {
  import opened Bytes
  import opened Raft
  import opened RaftElection
  import opened RaftDisk
  import opened RaftLog
  import opened RaftHistory
  import opened RaftRepair
  import opened RaftSafety

  const TRIO: set<nat> := {1, 2, 3}

  datatype Run = Run(es: seq<Event>, c: Cluster)

  ghost predicate Trio(c: Cluster) {
    c.voters == TRIO && c.nodes.Keys == TRIO && forall i :: i in TRIO ==> c.nodes[i].id == i
  }

  /** The run leads from `c0` to where it says, with every check made. */
  ghost predicate Goes(c0: Cluster, r: Run) {
    CarefulRun(c0, r.es) && After(c0, r.es) == r.c && Trio(r.c)
  }

  lemma Starts(c: Cluster) returns (r: Run)
    requires Trio(c)
    ensures Goes(c, r) && r.c == c
  {
    r := Run([], c);
  }

  lemma InitialTrio()
    ensures Trio(Initial(TRIO)) && Initial(TRIO).nodes == map[1 := NewNode(1), 2 := NewNode(2), 3 := NewNode(3)]
  {
  }

  lemma {:induction false} OneMore(c: Cluster, es: seq<Event>, e: Event)
    requires CarefulRun(c, es) && Enabled(After(c, es), e) && Careful(After(c, es), e)
    ensures CarefulRun(c, es + [e]) && After(c, es + [e]) == Step(After(c, es), e)
    decreases |es|
  {
    hide Step, PointRight, Careful;
    if es == [] {
      assert (es + [e])[1..] == [] && (es + [e])[0] == e;
    } else {
      OneMore(Step(c, es[0]), es[1..], e);
      assert (es + [e])[1..] == es[1..] + [e];
    }
  }

  lemma Does(c0: Cluster, r: Run, e: Event, o: Out) returns (s: Run)
    requires Goes(c0, r) && Enabled(r.c, e) && Careful(r.c, e)
    requires o == NodeStep(r.c.nodes[Actor(e)], e, TRIO) && o.node.id == Actor(e)
    ensures Goes(c0, s) && s.c.nodes == r.c.nodes[Actor(e) := o.node] && s.c.net == r.c.net + o.sent
  {
    hide NodeStep, PointRight, Careful, CarefulRun, After;
    OneMore(c0, r.es, e);
    s := Run(r.es + [e], Step(r.c, e));
  }

  // ------------------------------------------------------------------------ elections

  lemma TrioQuorums(votes: set<nat>)
    requires votes <= TRIO
    ensures |TRIO| == 3 && (|votes| >= 2 <==> HasQuorum(TRIO, votes))
  {
    assert TRIO * votes == votes;
  }

  function Standing(n: Node): Node {
    n.(role := Candidate, term := n.term + 1, vote := n.id, votes := {n.id})
  }

  function Leading(n: Node, j: nat): Node {
    BecomeLeader(Standing(n).(votes := {n.id, j}))
  }

  function Voted(n: Node, i: nat, t: nat): Node {
    n.(role := Follower, term := t, vote := i)
  }

  function Request(n: Node, p: nat): Msg {
    Vote(n.id, p, n.term + 1, |n.log|, n.lastTerm)
  }

  /** `i` asks for votes in its next term. */
  lemma Asks(c0: Cluster, r: Run, i: nat) returns (s: Run)
    requires Goes(c0, r) && i in TRIO && !r.c.nodes[i].role.Leader?
    ensures Goes(c0, s) && s.c.nodes == r.c.nodes[i := Standing(r.c.nodes[i])] && r.c.net <= s.c.net
    ensures forall p :: p in TRIO && p != i ==> Request(r.c.nodes[i], p) in s.c.net
  {
    hide Goes, HasQuorum;
    assert Trio(r.c) by { GoesTrio(c0, r); }
    TrioQuorums({i});
    s := Does(c0, r, HupAt(i, false), Hup(r.c.nodes[i], TRIO, false));
  }

  lemma GoesTrio(c0: Cluster, r: Run)
    requires Goes(c0, r)
    ensures Trio(r.c)
  {
  }

  /** `j` grants it. */
  lemma Grants(c0: Cluster, r: Run, n: Node, j: nat) returns (s: Run)
    requires Goes(c0, r) && j in TRIO && n.id in TRIO && Request(n, j) in r.c.net && r.c.nodes[j].term <= n.term
    requires NoWorse(|r.c.nodes[j].log|, r.c.nodes[j].lastTerm, |n.log|, n.lastTerm)
    ensures Goes(c0, s) && s.c.nodes == r.c.nodes[j := Voted(r.c.nodes[j], n.id, n.term + 1)] && r.c.net <= s.c.net
    ensures VoteResp(j, n.id, n.term + 1, false) in s.c.net
  {
    hide Goes, NoWorse;
    assert Trio(r.c) by { GoesTrio(c0, r); }
    s := Does(c0, r, Deliver(Request(n, j), false, 0, 0), HandleVote(r.c.nodes[j], Request(n, j)));
  }

  /** A grant makes a candidate the leader, of whatever term the grant is. */
  lemma Counts(n: Node, j: nat, t: nat)
    requires n.id in TRIO && j in TRIO && n.id != j && n.role.Candidate? && n.votes == {n.id} && t <= n.term
    ensures HandleVoteResp(n, VoteResp(j, n.id, t, false), TRIO).node == BecomeLeader(n.(votes := {n.id, j}))
  {
    TrioQuorums({n.id, j});
    assert {n.id} + {j} == {n.id, j};
  }

  lemma TakesOver(c0: Cluster, r: Run, i: nat, j: nat) returns (s: Run)
    requires Goes(c0, r) && i in TRIO && j in TRIO && i != j && r.c.nodes[i].role.Candidate? && r.c.nodes[i].votes == {i}
    requires VoteResp(j, i, r.c.nodes[i].term, false) in r.c.net
    ensures Goes(c0, s) && r.c.net <= s.c.net
    ensures s.c.nodes == r.c.nodes[i := BecomeLeader(r.c.nodes[i].(votes := {i, j}))]
  {
    hide Goes, HandleVoteResp;
    assert Trio(r.c) by { GoesTrio(c0, r); }
    var m := VoteResp(j, i, r.c.nodes[i].term, false);
    Counts(r.c.nodes[i], j, m.term);
    s := Does(c0, r, Deliver(m, false, 0, 0), HandleVoteResp(r.c.nodes[i], m, TRIO));
  }

  /** `i` comes to lead its next term with the vote of `j`. */
  lemma Elects(c0: Cluster, r: Run, i: nat, j: nat) returns (s: Run)
    requires Goes(c0, r) && i in TRIO && j in TRIO && i != j && !r.c.nodes[i].role.Leader?
    requires r.c.nodes[j].term <= r.c.nodes[i].term
    requires NoWorse(|r.c.nodes[j].log|, r.c.nodes[j].lastTerm, |r.c.nodes[i].log|, r.c.nodes[i].lastTerm)
    ensures Goes(c0, s) && r.c.net <= s.c.net
    ensures var n := r.c.nodes[i];
            s.c.nodes == r.c.nodes[i := Leading(n, j)][j := Voted(r.c.nodes[j], i, n.term + 1)]
    ensures forall p :: p in TRIO && p != i ==> Request(r.c.nodes[i], p) in s.c.net
  {
    hide Goes, NoWorse, BecomeLeader;
    assert Trio(r.c) by { GoesTrio(c0, r); }
    s := Asks(c0, r, i);
    s := Grants(c0, s, r.c.nodes[i], j);
    s := TakesOver(c0, s, i, j);
  }

  /** A request of a later term from a worse log only takes the role and the vote away. */
  lemma Yields(c0: Cluster, r: Run, n: Node, j: nat) returns (s: Run)
    requires Goes(c0, r) && j in TRIO && n.id in TRIO && Request(n, j) in r.c.net && r.c.nodes[j].term <= n.term
    requires !NoWorse(|r.c.nodes[j].log|, r.c.nodes[j].lastTerm, |n.log|, n.lastTerm)
    ensures Goes(c0, s) && r.c.net <= s.c.net
    ensures s.c.nodes == r.c.nodes[j := Voted(r.c.nodes[j], 0, n.term + 1)]
  {
    hide Goes, NoWorse;
    assert Trio(r.c) by { GoesTrio(c0, r); }
    s := Does(c0, r, Deliver(Request(n, j), false, 0, 0), HandleVote(r.c.nodes[j], Request(n, j)));
  }

  // ------------------------------------------------------------------------ appends

  lemma {:induction false} Follows(log: Log, last: nat, entries: Log)
    ensures PutEntries(log, |log| + 1, entries) == log + entries
    ensures PutLast(log, last, |log| + 1, entries) == if entries == [] then last else LastTerm(entries)
    decreases |entries|
  {
    if entries == [] {
      assert log + entries == log;
    } else {
      Follows(log + [entries[0]], entries[0].term, entries[1..]);
      assert log + [entries[0]] + entries[1..] == log + entries;
    }
  }

  /** Entries that go on from `k` or contradict what is there. */
  lemma {:induction false} Replaces(log: Log, last: nat, k: nat, entries: Log)
    requires k <= |log| && entries != [] && (k == |log| || log[k].term != entries[0].term)
    ensures PutEntries(log, k + 1, entries) == log[..k] + entries
    ensures PutLast(log, last, k + 1, entries) == LastTerm(entries)
  {
    hide PutEntries, PutLast;
    var now := PutEntry(log, k + 1, entries[0]);
    PutStep(log, last, k + 1, entries);
    assert now == log[..k] + [entries[0]];
    Follows(now, entries[0].term, entries[1..]);
    assert now + entries[1..] == log[..k] + entries;
  }

  predicate Fits(n: Node, m: Msg) {
    && m.App? && m.entries != [] && Accepts(n, m)
    && (m.index == |n.log| || n.log[m.index].term != m.entries[0].term)
  }

  function Kept(n: Node, m: Msg): Node
    requires Fits(n, m)
  {
    Advanced(Raft.BecomeFollower(n, m.term).(log := n.log[..m.index] + m.entries, lastTerm := LastTerm(m.entries),
                                        disk := n.disk + Records(m.index + 1, m.entries)), m.commit)
  }

  /** A follower stores what a leader sent it, and answers. */
  lemma Takes(c0: Cluster, r: Run, m: Msg) returns (s: Run)
    requires Goes(c0, r) && m in r.c.net && m.to in TRIO && Fits(r.c.nodes[m.to], m)
    ensures Goes(c0, s) && r.c.net <= s.c.net && s.c.nodes == r.c.nodes[m.to := Kept(r.c.nodes[m.to], m)]
    ensures AppResp(m.to, m.from, m.term, m.index + |m.entries|, false) in s.c.net
  {
    hide Goes, PutEntries, PutLast, Records, LastTerm;
    assert Trio(r.c) by { GoesTrio(c0, r); }
    var n := r.c.nodes[m.to];
    Replaces(n.log, n.lastTerm, m.index, m.entries);
    s := Does(c0, r, Deliver(m, false, 0, 0), HandleApp(n, m));
  }

  /** An append of an earlier term is refused, with index 0. */
  lemma Deaf(c0: Cluster, r: Run, m: Msg) returns (s: Run)
    requires Goes(c0, r) && m.App? && m in r.c.net && m.to in TRIO && m.term < r.c.nodes[m.to].term
    ensures Goes(c0, s) && r.c.net <= s.c.net && s.c.nodes == r.c.nodes
    ensures AppResp(m.to, m.from, r.c.nodes[m.to].term, 0, true) in s.c.net
  {
    hide Goes;
    assert Trio(r.c) by { GoesTrio(c0, r); }
    var n := r.c.nodes[m.to];
    s := Does(c0, r, Deliver(m, false, 0, 0), HandleApp(n, m));
    assert r.c.nodes[m.to := n] == r.c.nodes;
  }

  /** An append past the end of the log is refused, with the index of its end. */
  lemma Lacks(c0: Cluster, r: Run, m: Msg) returns (s: Run)
    requires Goes(c0, r) && m.App? && m in r.c.net && m.to in TRIO
    requires m.term >= r.c.nodes[m.to].term && m.index > |r.c.nodes[m.to].log|
    ensures Goes(c0, s) && r.c.net <= s.c.net
    ensures s.c.nodes == r.c.nodes[m.to := Raft.BecomeFollower(r.c.nodes[m.to], m.term)]
    ensures AppResp(m.to, m.from, m.term, |r.c.nodes[m.to].log|, true) in s.c.net
  {
    hide Goes;
    assert Trio(r.c) by { GoesTrio(c0, r); }
    s := Does(c0, r, Deliver(m, false, 0, 0), HandleApp(r.c.nodes[m.to], m));
  }

  function Backed(n: Node, j: nat, k: nat): Node {
    n.(next := n.next[j := k + 1], flight := n.flight + {j})
  }

  /** A refusal makes the leader send again from further back. */
  lemma Refused(n: Node, m: Msg, limit: nat)
    requires m.AppResp? && m.reject && n.role.Leader? && m.term <= n.term && m.from in TRIO && m.from != n.id
    requires n.match_ == map[] && m.index + 1 < NextOf(n, m.from) && m.index < |n.log|
    ensures HandleAppResp(n, m, TRIO, 0, limit)
         == Out(Backed(n, m.from, m.index), {AppOf(n, m.from, m.index, Batch(n.log, m.index + 1, limit))})
  {
    hide Batch, TermAt;
    var d := n.(flight := n.flight - {m.from}, next := n.next[m.from := m.index + 1]);
    var o := SendApps(d, {m.from}, limit);
    assert CanSend(d, m.from);
    assert o.node.flight == n.flight + {m.from};
    assert o.sent == {AppTo(d, m.from, limit)};
  }

  lemma Resends(c0: Cluster, r: Run, m: Msg, limit: nat) returns (s: Run)
    requires Goes(c0, r) && m.AppResp? && m.reject && m in r.c.net && m.to in TRIO && m.from in TRIO && m.from != m.to
    requires var n := r.c.nodes[m.to];
             && n.role.Leader? && m.term <= n.term && n.match_ == map[] && m.index + 1 < NextOf(n, m.from) && m.index < |n.log|
    ensures Goes(c0, s) && r.c.net <= s.c.net
    ensures var n := r.c.nodes[m.to];
            && s.c.nodes == r.c.nodes[m.to := Backed(n, m.from, m.index)]
            && AppOf(n, m.from, m.index, Batch(n.log, m.index + 1, limit)) in s.c.net
  {
    hide Goes, Batch, HandleAppResp, AppOf;
    assert Trio(r.c) by { GoesTrio(c0, r); }
    Refused(r.c.nodes[m.to], m, limit);
    s := Does(c0, r, Deliver(m, false, 0, limit), HandleAppResp(r.c.nodes[m.to], m, TRIO, 0, limit));
  }

  lemma Nobody(n: Node)
    requires n.id in TRIO && n.match_ == map[]
    ensures IsCommitPoint(n, TRIO, 0)
  {
    assert Reached(n, TRIO, 0) == TRIO;
    forall x: nat | x > 0 ensures |Reached(n, TRIO, x)| < 2 {
      SubsetSize(Reached(n, TRIO, x), {n.id});
    }
  }

  /** With one other heard from, the commit point is as far as both go. */
  lemma Both(n: Node, j: nat, k: nat)
    requires n.id in TRIO && j in TRIO && j != n.id && n.match_ == map[j := k]
    ensures IsCommitPoint(n, TRIO, Min(k, |n.log|))
  {
    var c := Min(k, |n.log|);
    assert {n.id, j} <= Reached(n, TRIO, c);
    SubsetSize({n.id, j}, Reached(n, TRIO, c));
    forall x: nat | x > c ensures |Reached(n, TRIO, x)| < 2 {
      SubsetSize(Reached(n, TRIO, x), {if k > |n.log| then j else n.id});
    }
  }

  function Noted(n: Node, j: nat, k: nat): Node {
    n.(match_ := n.match_[j := k], next := n.next[j := k + 1], flight := n.flight - {j})
  }

  /** The leader notes an answer and has nothing further to send. */
  lemma Answered(n: Node, m: Msg, point: nat)
    requires m.AppResp? && !m.reject && n.role.Leader? && m.term <= n.term && m.from in TRIO && |n.log| <= m.index
    ensures HandleAppResp(n, m, TRIO, point, 0) == Out(MaybeCommit(Noted(n, m.from, m.index), point), {})
  {
    var b := MaybeCommit(Noted(n, m.from, m.index), point);
    assert !CanSend(b, m.from);
    var o := SendApps(b, {m.from}, 0);
    assert o.node.flight == b.flight && o.sent == {};
  }

  lemma Notes(c0: Cluster, r: Run, m: Msg) returns (s: Run)
    requires Goes(c0, r) && m.AppResp? && !m.reject && m in r.c.net && m.to in TRIO && m.from in TRIO && m.from != m.to
    requires var n := r.c.nodes[m.to];
             n.role.Leader? && m.term == n.term && |n.log| <= m.index && n.match_.Keys <= {m.from}
    ensures Goes(c0, s) && r.c.net <= s.c.net
    ensures var n := r.c.nodes[m.to];
            s.c.nodes == r.c.nodes[m.to := MaybeCommit(Noted(n, m.from, m.index), |n.log|)]
  {
    hide Goes, IsCommitPoint, HandleAppResp, TermAt;
    assert Trio(r.c) by { GoesTrio(c0, r); }
    var n := r.c.nodes[m.to];
    Both(n.(match_ := n.match_[m.from := m.index]), m.from, m.index);
    Answered(n, m, |n.log|);
    s := Does(c0, r, Deliver(m, false, |n.log|, 0), HandleAppResp(n, m, TRIO, |n.log|, 0));
  }

  // ----------------------------------------------------------------------- proposals

  function Added(n: Node, data: seq<byte>): Node {
    var e := Entry(n.term, data);
    n.(log := n.log + [e], lastTerm := n.term, disk := n.disk + [Stored(|n.log| + 1, e)])
  }

  lemma Proposes(c0: Cluster, r: Run, i: nat, data: seq<byte>, point: nat) returns (s: Run)
    requires Goes(c0, r) && i in TRIO && r.c.nodes[i].role.Leader?
    requires IsCommitPoint(Added(r.c.nodes[i], data), TRIO, point)
    ensures var o := SendApps(Added(r.c.nodes[i], data), TRIO, 0);
            Goes(c0, s) && s.c.nodes == r.c.nodes[i := MaybeCommit(o.node, point)] && s.c.net == r.c.net + o.sent
  {
    hide Goes, IsCommitPoint, SendApps, TermAt;
    SendsLeave();
    assert Trio(r.c) by { GoesTrio(c0, r); }
    var n := r.c.nodes[i];
    SamePoint(Added(n, data), n.(log := n.log + [Entry(n.term, data)]), TRIO, point);
    s := Does(c0, r, ProposeAt(i, data, point, 0), Propose(n, data, TRIO, point, 0));
  }

  lemma LastBatch(log: Log, limit: nat)
    requires log != []
    ensures Batch(log, |log|, limit) == 1
  {
  }

  /** A new leader's first proposal goes to both others. */
  lemma First(c0: Cluster, r: Run, i: nat, data: seq<byte>) returns (s: Run)
    requires Goes(c0, r) && i in TRIO
    requires var n := r.c.nodes[i];
             n.role.Leader? && n.match_ == map[] && n.next == map[] && n.flight == {} && n.start == |n.log| + 1 && n.commit == 0
    ensures Goes(c0, s) && r.c.net <= s.c.net
    ensures var n := Added(r.c.nodes[i], data);
            && s.c.nodes == r.c.nodes[i := n.(flight := TRIO - {i})]
            && forall p :: p in TRIO && p != i ==> AppOf(n, p, |n.log| - 1, 1) in s.c.net
  {
    hide Goes, IsCommitPoint, SendApps, TermAt, AppOf;
    assert Trio(r.c) by { GoesTrio(c0, r); }
    var n := Added(r.c.nodes[i], data);
    Nobody(n);
    FirstSends(n);
    s := Proposes(c0, r, i, data, 0);
  }

  lemma FirstSends(n: Node)
    requires n.id in TRIO && n.next == map[] && n.flight == {} && n.start == |n.log| > 0
    ensures SendApps(n, TRIO, 0).node == n.(flight := TRIO - {n.id})
    ensures forall p :: p in TRIO && p != n.id ==> AppOf(n, p, |n.log| - 1, 1) in SendApps(n, TRIO, 0).sent
  {
    hide Batch, AppOf;
    LastBatch(n.log, 0);
    assert forall p :: p in TRIO ==> (CanSend(n, p) <==> p != n.id);
    forall p | p in TRIO && p != n.id ensures AppTo(n, p, 0) == AppOf(n, p, |n.log| - 1, 1) {
    }
    hide CanSend, AppTo;
    assert SendApps(n, TRIO, 0).node.flight == TRIO - {n.id};
    forall p | p in TRIO && p != n.id ensures AppOf(n, p, |n.log| - 1, 1) in SendApps(n, TRIO, 0).sent {
      assert AppTo(n, p, 0) in SendApps(n, TRIO, 0).sent;
    }
  }

  /** With both others yet to answer, a proposal goes nowhere. */
  lemma Waits(c0: Cluster, r: Run, i: nat, data: seq<byte>) returns (s: Run)
    requires Goes(c0, r) && i in TRIO
    requires var n := r.c.nodes[i]; n.role.Leader? && n.match_ == map[] && n.flight == TRIO - {i} && n.commit == 0
    ensures Goes(c0, s) && r.c.net <= s.c.net && s.c.nodes == r.c.nodes[i := Added(r.c.nodes[i], data)]
  {
    hide Goes, IsCommitPoint, Batch, TermAt;
    assert Trio(r.c) by { GoesTrio(c0, r); }
    var n := Added(r.c.nodes[i], data);
    Nobody(n);
    s := Proposes(c0, r, i, data, 0);
    assert forall p :: p in TRIO ==> !CanSend(n, p);
    assert SendApps(n, TRIO, 0).node.flight == n.flight;
  }

  lemma AsApp(n: Node, p: nat, prev: nat)
    requires prev <= |n.log|
    ensures AppOf(n, p, prev, |n.log| - prev) == App(n.id, p, n.term, prev, TermAt(n.log, prev), n.log[prev..], n.commit)
  {
    assert n.log[prev..prev + (|n.log| - prev)] == n.log[prev..];
  }

  // ---------------------------------------------------------------- two leaders in a term

  /** Node 1 asks for votes in term 1 and gets node 2's; before it hears, it asks again in term 2.
      Node 3 wins term 2 with node 2. */
  lemma StaleRun(c0: Cluster) returns (r: Run)
    requires Trio(c0) && c0.nodes == map[1 := NewNode(1), 2 := NewNode(2), 3 := NewNode(3)]
    ensures Goes(c0, r) && VoteResp(2, 1, 1, false) in r.c.net && Leads(r.c, 2, 3)
    ensures var n := r.c.nodes[1]; n.role.Candidate? && n.votes == {1} && n.term == 2
  {
    hide Goes;
    r := Starts(c0);
    r := Asks(c0, r, 1);
    r := Grants(c0, r, c0.nodes[1], 2);
    r := Asks(c0, r, 1);
    r := Asks(c0, r, 3);
    r := Elects(c0, r, 3, 2);
    assert Trio(r.c) by { GoesTrio(c0, r); }
  }

  /** After a run with every check made, one stale grant gives term 2 a second leader. */
  lemma StaleGrantElectsTwo() returns (es: seq<Event>, e: Event, d: Cluster)
    ensures CarefulRun(Initial(TRIO), es)
    ensures Enabled(After(Initial(TRIO), es), e) && d == Step(After(Initial(TRIO), es), e)
    ensures Leads(d, 2, 1) && Leads(d, 2, 3)
  {
    hide CarefulRun, After, Initial, HandleVoteResp;
    InitialTrio();
    var r := StaleRun(Initial(TRIO));
    es, e := r.es, Deliver(VoteResp(2, 1, 1, false), false, 0, 0);
    Counts(r.c.nodes[1], 2, 1);
    d := Step(r.c, e);
  }

  // ----------------------------------------------------------------- two leaders, two logs

  const A: seq<byte> := [97]
  const B: seq<byte> := [98]
  const C: seq<byte> := [99]
  const D: seq<byte> := [100]

  const FIRST: Log := [Entry(1, A), Entry(1, B)]
  const OTHER: Log := [Entry(2, C)]

  ghost predicate Sits(n: Node, term: nat, role: Role, log: Log) {
    n.term == term && n.role == role && n.log == log && n.lastTerm == LastTerm(log) && n.commit == 0
  }

  /** Node 1 leads term 1 and keeps two entries to itself. */
  lemma Opens(c0: Cluster) returns (r: Run)
    requires Trio(c0) && c0.nodes == map[1 := NewNode(1), 2 := NewNode(2), 3 := NewNode(3)]
    ensures Goes(c0, r) && Sits(r.c.nodes[1], 1, Leader, FIRST) && r.c.nodes[1].disk == Records(1, FIRST)
    ensures Sits(r.c.nodes[2], 1, Follower, []) && r.c.nodes[3] == NewNode(3)
  {
    hide Goes, AppOf;
    r := Starts(c0);
    r := Elects(c0, r, 1, 2);
    r := First(c0, r, 1, A);
    r := Waits(c0, r, 1, B);
    assert [] + [Entry(1, A)] + [Entry(1, B)] == FIRST;
    assert FIRST[1..] == [Entry(1, B)] && FIRST[1..][1..] == [];
    assert Records(2, FIRST[1..]) == [Stored(2, Entry(1, B))];
  }

  /** Node 1 leads term 1 and node 2 term 2, each with a log of its own. */
  ghost predicate Split(c: Cluster) {
    && Trio(c)
    && Sits(c.nodes[1], 1, Leader, FIRST) && c.nodes[1].disk == Records(1, FIRST)
    && Sits(c.nodes[2], 2, Leader, OTHER) && c.nodes[2].match_ == map[] && c.nodes[2].next == map[]
    && c.nodes[2].flight == {1, 3} && c.nodes[2].start == 1
    && Sits(c.nodes[3], 2, Follower, [])
    && Vote(2, 1, 2, 0, 0) in c.net
    && App(2, 1, 2, 0, 0, OTHER, 0) in c.net && App(2, 3, 2, 0, 0, OTHER, 0) in c.net
  }

  lemma Splits(c0: Cluster, r: Run) returns (s: Run)
    requires Goes(c0, r) && Sits(r.c.nodes[1], 1, Leader, FIRST) && r.c.nodes[1].disk == Records(1, FIRST)
    requires Sits(r.c.nodes[2], 1, Follower, []) && r.c.nodes[3] == NewNode(3)
    ensures Goes(c0, s) && Split(s.c)
  {
    hide Goes, AppOf, Records;
    assert Trio(r.c) by { GoesTrio(c0, r); }
    s := Elects(c0, r, 2, 3);
    assert Request(r.c.nodes[2], 1) == Vote(2, 1, 2, 0, 0);
    s := First(c0, s, 2, C);
    assert Trio(s.c) by { GoesTrio(c0, s); }
    var n := Added(Leading(r.c.nodes[2], 3), C);
    assert [] + [Entry(2, C)] == OTHER && OTHER[0..] == OTHER;
    AsApp(n, 1, 0);
    AsApp(n, 3, 0);
  }

  // -------------------------------------------------------- two entries committed in one place

  /** Node 2 commits its entry with node 3 and sends its heartbeats. */
  lemma BeatRun(c0: Cluster, r: Run) returns (s: Run)
    requires Goes(c0, r) && Split(r.c)
    ensures Goes(c0, s) && Heartbeat(2, 1, 2, 1) in s.c.net && Sits(s.c.nodes[1], 1, Leader, FIRST)
    ensures s.c.nodes[2].commit == 1 && s.c.nodes[2].log == OTHER
  {
    hide Goes, AppOf, Records, SendApps;
    SendsLeave();
    s := Takes(c0, r, App(2, 3, 2, 0, 0, OTHER, 0));
    s := Notes(c0, s, AppResp(3, 2, 2, 1, false));
    assert Trio(s.c) by { GoesTrio(c0, s); }
    var n := s.c.nodes[2];
    s := Does(c0, s, BeatAt(2, 0), Beat(n, TRIO, 0));
    assert Heartbeat(2, 1, 2, 1) in Heartbeats(n, TRIO);
  }

  /** After a run with every check made, in which node 2 has committed its entry, one heartbeat
      makes node 1 commit another at the same index. */
  lemma HeartbeatCommitsTwo() returns (es: seq<Event>, c: Cluster, e: Event, d: Cluster)
    ensures CarefulRun(Initial(TRIO), es) && c == After(Initial(TRIO), es) && Enabled(c, e) && d == Step(c, e)
    ensures 2 in c.nodes && c.nodes[2].commit == 1 && c.nodes[2].log == [Entry(2, C)]
    ensures 1 in d.nodes && d.nodes[1].commit == 1 && d.nodes[1].log == [Entry(1, A), Entry(1, B)]
  {
    hide CarefulRun, After, Initial;
    InitialTrio();
    var r := Opens(Initial(TRIO));
    r := Splits(Initial(TRIO), r);
    r := BeatRun(Initial(TRIO), r);
    es, c, e := r.es, r.c, Deliver(Heartbeat(2, 1, 2, 1), false, 0, 0);
    d := Step(c, e);
  }

  // --------------------------------------------------------------- a restart after a cut

  /** Node 2's entry takes the place of both entries of node 1, and reaches node 3. */
  lemma Cuts(c0: Cluster, r: Run) returns (s: Run)
    requires Goes(c0, r) && Split(r.c)
    ensures Goes(c0, s) && AppResp(1, 2, 2, 1, false) in s.c.net
    ensures Sits(s.c.nodes[1], 2, Follower, OTHER) && s.c.nodes[1].disk == Records(1, FIRST) + Records(1, OTHER)
    ensures s.c.nodes[2] == r.c.nodes[2] && Sits(s.c.nodes[3], 2, Follower, OTHER)
  {
    hide Goes, Records;
    s := Takes(c0, r, App(2, 1, 2, 0, 0, OTHER, 0));
    s := Takes(c0, s, App(2, 3, 2, 0, 0, OTHER, 0));
    assert FIRST[..0] + OTHER == OTHER && [] + OTHER == OTHER;
  }

  lemma CutImage()
    ensures Replayed(Records(1, FIRST) + Records(1, OTHER)) == Image([Entry(2, C), Entry(1, B)], 1)
  {
    CutDisk();
    var disk := Records(1, FIRST) + Records(1, OTHER);
    assert disk[..2] == [Stored(1, Entry(1, A)), Stored(2, Entry(1, B))] && disk[..2][..1] == [Stored(1, Entry(1, A))];
    assert Replayed(disk[..2][..1]) == Image([Entry(1, A)], 1) by { assert disk[..2][..1][..0] == []; }
    assert Replayed(disk[..2]) == Image(FIRST, 1);
    assert FIRST[0 := Entry(2, C)] == [Entry(2, C), Entry(1, B)];
  }

  lemma CutDisk()
    ensures Records(1, FIRST) + Records(1, OTHER)
         == [Stored(1, Entry(1, A)), Stored(2, Entry(1, B)), Stored(1, Entry(2, C))]
  {
    assert FIRST[1..] == [Entry(1, B)] && [Entry(1, B)][1..] == [] && OTHER[1..] == [];
    assert Records(2, [Entry(1, B)]) == [Stored(2, Entry(1, B))];
  }

  /** Between two times of a run with every check made, node 1's log is cut; a restart then brings
      back an entry it had before, behind another.  So log matching fails: both logs have an entry of
      term 1 at index 2, and differ at index 1. */
  lemma RestartBreaksMatching() returns (es: seq<Event>, more: seq<Event>, c: Cluster, d: Cluster)
    ensures CarefulRun(Initial(TRIO), es) && c == After(Initial(TRIO), es) && CarefulRun(c, more)
    ensures Enabled(After(c, more), RestartAt(1)) && d == Step(After(c, more), RestartAt(1))
    ensures 1 in c.nodes && c.nodes[1].log == [Entry(1, A), Entry(1, B)]
    ensures 1 in d.nodes && d.nodes[1].log == [Entry(2, C), Entry(1, B)]
  {
    hide CarefulRun, After, Initial, Records, Replayed;
    InitialTrio();
    var r := Opens(Initial(TRIO));
    es, c := r.es, r.c;
    r := Starts(c);
    r := Splits(c, r);
    r := Cuts(c, r);
    more := r.es;
    CutImage();
    d := Step(r.c, RestartAt(1));
  }

  const BOTH: Log := [Entry(2, C), Entry(2, D)]

  /** Node 2 commits its entry with node 1, and sends it a second one. */
  lemma GoesOn(c0: Cluster, r: Run) returns (s: Run)
    requires Goes(c0, r) && AppResp(1, 2, 2, 1, false) in r.c.net
    requires Sits(r.c.nodes[2], 2, Leader, OTHER) && r.c.nodes[2].match_ == map[] && r.c.nodes[2].next == map[]
    requires r.c.nodes[2].flight == {1, 3} && r.c.nodes[2].start == 1
    ensures Goes(c0, s) && App(2, 1, 2, 1, 2, [Entry(2, D)], 1) in s.c.net
    ensures s.c.nodes[1] == r.c.nodes[1] && s.c.nodes[3] == r.c.nodes[3]
    ensures var n := s.c.nodes[2]; n.role.Leader? && n.term == 2 && n.log == BOTH && n.match_ == map[1 := 1] && n.commit == 1
  {
    hide Goes, IsCommitPoint, SendApps;
    assert Trio(r.c) by { GoesTrio(c0, r); }
    s := Notes(c0, r, AppResp(1, 2, 2, 1, false));
    var n := s.c.nodes[2];
    assert n.match_ == map[1 := 1] && n.next == map[1 := 2] && n.flight == {3};
    assert Trio(s.c) by { GoesTrio(c0, s); }
    var o := Added(n, D);
    assert o.log == BOTH;
    Both(o, 1, 1);
    SecondSends(o);
    s := Proposes(c0, s, 2, D, 1);
  }

  /** Node 1 stores it, and node 2 commits it too. */
  lemma CommitRun(c0: Cluster, r: Run) returns (s: Run)
    requires Goes(c0, r) && App(2, 1, 2, 1, 2, [Entry(2, D)], 1) in r.c.net
    requires Sits(r.c.nodes[1], 2, Follower, OTHER) && r.c.nodes[1].disk == Records(1, FIRST) + Records(1, OTHER)
    requires var n := r.c.nodes[2]; n.role.Leader? && n.term == 2 && n.log == BOTH && n.match_ == map[1 := 1] && n.commit == 1
    ensures Goes(c0, s) && s.c.nodes[3] == r.c.nodes[3] && s.c.nodes[2].commit == 2 && s.c.nodes[2].log == BOTH
    ensures var n := s.c.nodes[1];
            n.term == 2 && n.log == BOTH && n.disk == Records(1, FIRST) + Records(1, OTHER) + Records(2, [Entry(2, D)])
  {
    hide Goes, Records;
    assert Trio(r.c) by { GoesTrio(c0, r); }
    s := Takes(c0, r, App(2, 1, 2, 1, 2, [Entry(2, D)], 1));
    assert OTHER[..1] + [Entry(2, D)] == BOTH;
    s := Notes(c0, s, AppResp(1, 2, 2, 2, false));
  }

  lemma SecondSends(n: Node)
    requires n.id == 2 && n.log == BOTH && n.term == 2 && n.next == map[1 := 2] && n.flight == {3} && n.commit == 1
    ensures SendApps(n, TRIO, 0).node == n.(flight := {1, 3})
    ensures App(2, 1, 2, 1, 2, [Entry(2, D)], 1) in SendApps(n, TRIO, 0).sent
  {
    hide Batch;
    LastBatch(n.log, 0);
    AsApp(n, 1, 1);
    assert BOTH[1..] == [Entry(2, D)];
    assert CanSend(n, 1) && !CanSend(n, 2) && !CanSend(n, 3);
    assert AppTo(n, 1, 0) in SendApps(n, TRIO, 0).sent;
    assert SendApps(n, TRIO, 0).node.flight == {1, 3};
  }

  lemma StaleImage()
    ensures Replayed(Records(1, FIRST) + Records(1, OTHER) + Records(2, [Entry(2, D)])) == Image(BOTH, 1)
  {
    var init, one: Log := Records(1, FIRST) + Records(1, OTHER), [Entry(2, D)];
    var last := Records(2, one);
    assert one[1..] == [] && Records(3, []) == [];
    assert last == [Stored(2, one[0])] + Records(3, one[1..]) == [Stored(2, Entry(2, D))];
    assert |init + last| - 1 == |init| && (init + last)[..|init|] == init;
    assert Replayed(init + last) == Placed(Replayed(init), Stored(2, Entry(2, D)));
    CutImage();
    assert [Entry(2, C), Entry(1, B)][1 := Entry(2, D)] == BOTH;
  }

  lemma RestartsStale(c: Cluster) returns (d: Cluster)
    requires Trio(c) && c.nodes[1].disk == Records(1, FIRST) + Records(1, OTHER) + Records(2, [Entry(2, D)])
    ensures Enabled(c, RestartAt(1)) && d == Step(c, RestartAt(1)) && Trio(d)
    ensures var n := d.nodes[1]; n.term == c.nodes[1].term && n.role.Follower? && n.log == BOTH && n.lastTerm == 1
    ensures d.nodes[2] == c.nodes[2] && d.nodes[3] == c.nodes[3]
  {
    hide Records, Replayed;
    StaleImage();
    d := Step(c, RestartAt(1));
  }

  /** Node 3 leads term 3 with the vote of node 1, and commits an entry of its own with it. */
  lemma RestartRun(c0: Cluster) returns (r: Run)
    requires Trio(c0) && Sits(c0.nodes[3], 2, Follower, OTHER)
    requires var n := c0.nodes[1]; n.term == 2 && n.role.Follower? && n.log == BOTH && n.lastTerm == 1
    ensures Goes(c0, r) && r.c.nodes[2] == c0.nodes[2]
    ensures r.c.nodes[3].commit == 2 && r.c.nodes[3].log == [Entry(2, C), Entry(3, A)]
  {
    hide Goes, AppOf, Records;
    r := Starts(c0);
    r := Elects(c0, r, 3, 1);
    r := First(c0, r, 3, A);
    assert Trio(r.c) by { GoesTrio(c0, r); }
    var n := Added(Leading(c0.nodes[3], 1), A);
    assert n.log == [Entry(2, C), Entry(3, A)] && n.log[1..] == [Entry(3, A)];
    AsApp(n, 1, 1);
    r := Takes(c0, r, App(3, 1, 3, 1, 2, [Entry(3, A)], 0));
    r := Notes(c0, r, AppResp(1, 3, 3, 2, false));
  }

  /** Between two runs with every check made, one restart of a node whose log was cut makes two nodes
      commit different entries at index 2. */
  lemma RestartCommitsTwo() returns (es: seq<Event>, more: seq<Event>, d: Cluster)
    ensures CarefulRun(Initial(TRIO), es) && Enabled(After(Initial(TRIO), es), RestartAt(1))
    ensures var c := Step(After(Initial(TRIO), es), RestartAt(1)); CarefulRun(c, more) && d == After(c, more)
    ensures 2 in d.nodes && d.nodes[2].commit == 2 && d.nodes[2].log == [Entry(2, C), Entry(2, D)]
    ensures 3 in d.nodes && d.nodes[3].commit == 2 && d.nodes[3].log == [Entry(2, C), Entry(3, A)]
  {
    hide CarefulRun, After, Initial, Records, Step, Enabled;
    InitialTrio();
    var r := Opens(Initial(TRIO));
    r := Splits(Initial(TRIO), r);
    r := Cuts(Initial(TRIO), r);
    r := GoesOn(Initial(TRIO), r);
    r := CommitRun(Initial(TRIO), r);
    es := r.es;
    var c := RestartsStale(r.c);
    r := RestartRun(c);
    more, d := r.es, r.c;
  }

  // ------------------------------------------------------------ a log that is never repaired

  /** Node 3 leads term 3 with node 2's entry, and makes another. */
  lemma StuckRun(c0: Cluster, r: Run) returns (s: Run)
    requires Goes(c0, r) && Split(r.c)
    ensures Goes(c0, s) && s.c.nodes[1] == r.c.nodes[1]
    ensures var l := s.c.nodes[3];
            && l.role.Leader? && l.term == 3 && l.log == [Entry(2, C), Entry(3, D)] && NextOf(l, 1) == 2
            && AppOf(l, 1, 1, 1) in s.c.net
  {
    hide Goes, AppOf, Records;
    s := Takes(c0, r, App(2, 3, 2, 0, 0, OTHER, 0));
    assert [] + OTHER == OTHER;
    s := Elects(c0, s, 3, 2);
    s := First(c0, s, 3, D);
    assert OTHER + [Entry(3, D)] == [Entry(2, C), Entry(3, D)];
    assert Trio(s.c) by { GoesTrio(c0, s); }
    var l := s.c.nodes[3];
    SameApp(l, l.(flight := {}), 1, 1, 1);
  }

  lemma SameApp(a: Node, b: Node, p: nat, prev: nat, count: nat)
    requires prev + count <= |a.log| && b == a.(flight := b.flight)
    ensures AppOf(a, p, prev, count) == AppOf(b, p, prev, count)
  {
  }

  /** After a run with every check made, node 3 leads and offers an entry that node 1 refuses, and
      however often it is refused, node 1 keeps its own log. */
  lemma NeverRepaired(k: nat) returns (es: seq<Event>, c: Cluster)
    requires k > 0
    ensures CarefulRun(Initial(TRIO), es) && c == After(Initial(TRIO), es) && 1 in c.nodes && 3 in c.nodes
    ensures Probing(c.nodes[3], c.nodes[1], TRIO) && Offer(c.nodes[3], c.nodes[1], 0) in c.net
    ensures var (l, f) := Rounds(c.nodes[3], c.nodes[1], TRIO, 0, k);
            Probing(l, f, TRIO) && !Accepts(f, Offer(l, f, 0)) && f.log == FIRST
  {
    hide CarefulRun, After, Initial, Records, Rounds, Accepts, Batch;
    InitialTrio();
    var r := Opens(Initial(TRIO));
    r := Splits(Initial(TRIO), r);
    r := StuckRun(Initial(TRIO), r);
    es, c := r.es, r.c;
    LastBatch(c.nodes[3].log, 0);
    RepairedIff(c.nodes[3], c.nodes[1], TRIO, 0, k);
  }

  // ------------------------------------------------------ an answer for more than was sent

  lemma AllFit(log: Log)
    requires |log| == 3 && forall k :: 0 <= k < 3 ==> |log[k].data| == 1
    ensures Batch(log, 1, 0) == 3
  {
    assert BatchFrom(log, 2, 2, 34, 0) == BatchFrom(log, 3, 3, 51, 0) == 3;
    assert BatchFrom(log, 1, 1, 17, 0) == 3;
  }

  const ONE: Log := [Entry(1, A)]
  const TAIL: Log := [Entry(1, A), Entry(2, B)]

  /** Node 2 leads term 1 and gives node 1 an entry. */
  lemma TailFirst(c0: Cluster) returns (r: Run)
    requires Trio(c0) && c0.nodes == map[1 := NewNode(1), 2 := NewNode(2), 3 := NewNode(3)]
    ensures Goes(c0, r) && App(2, 1, 1, 0, 0, ONE, 0) in r.c.net
    ensures Sits(r.c.nodes[1], 1, Follower, ONE) && Sits(r.c.nodes[2], 1, Leader, ONE) && Sits(r.c.nodes[3], 1, Follower, [])
  {
    hide Goes, AppOf, Records;
    r := Starts(c0);
    r := Elects(c0, r, 2, 3);
    r := First(c0, r, 2, A);
    assert [] + [Entry(1, A)] == ONE && ONE[0..] == ONE && [] + ONE == ONE;
    AsApp(Added(Leading(c0.nodes[2], 3), A), 1, 0);
    r := Takes(c0, r, App(2, 1, 1, 0, 0, ONE, 0));
  }

  /** Node 1 leads term 2, refuses that append when it comes again, and makes an entry of its own. */
  lemma TailOpens(c0: Cluster, r: Run) returns (s: Run)
    requires Goes(c0, r) && App(2, 1, 1, 0, 0, ONE, 0) in r.c.net
    requires Sits(r.c.nodes[1], 1, Follower, ONE) && Sits(r.c.nodes[2], 1, Leader, ONE) && Sits(r.c.nodes[3], 1, Follower, [])
    ensures Goes(c0, s) && AppResp(1, 2, 2, 0, true) in s.c.net
    ensures Sits(s.c.nodes[1], 2, Leader, TAIL) && Sits(s.c.nodes[2], 2, Follower, ONE) && Sits(s.c.nodes[3], 1, Follower, [])
  {
    hide Goes, AppOf;
    s := Elects(c0, r, 1, 2);
    s := Deaf(c0, s, App(2, 1, 1, 0, 0, ONE, 0));
    s := First(c0, s, 1, B);
    assert ONE + [Entry(2, B)] == TAIL;
  }

  /** Node 2 leads term 3, hears the refusal, and sends its entry again. */
  lemma TailSent(c0: Cluster, r: Run) returns (s: Run)
    requires Goes(c0, r) && AppResp(1, 2, 2, 0, true) in r.c.net
    requires Sits(r.c.nodes[1], 2, Leader, TAIL) && Sits(r.c.nodes[2], 2, Follower, ONE) && Sits(r.c.nodes[3], 1, Follower, [])
    ensures Goes(c0, s) && App(2, 1, 3, 0, 0, ONE, 0) in s.c.net
    ensures s.c.nodes[1] == r.c.nodes[1] && Sits(s.c.nodes[2], 3, Leader, ONE) && Sits(s.c.nodes[3], 3, Follower, [])
    ensures s.c.nodes[2].match_ == map[]
  {
    hide Goes, AppOf, Batch;
    assert Trio(r.c) by { GoesTrio(c0, r); }
    s := Elects(c0, r, 2, 3);
    assert Trio(s.c) by { GoesTrio(c0, s); }
    LastBatch(ONE, 0);
    AsApp(s.c.nodes[2], 1, 0);
    assert ONE[0..] == ONE;
    s := Resends(c0, s, AppResp(1, 2, 2, 0, true), 0);
  }

  /** Node 1 has that entry, keeps the one after it, and answers for both. */
  lemma TailHeard(c: Cluster) returns (d: Cluster)
    requires Trio(c) && App(2, 1, 3, 0, 0, ONE, 0) in c.net && Sits(c.nodes[1], 2, Leader, TAIL)
    ensures var e := Deliver(App(2, 1, 3, 0, 0, ONE, 0), false, 0, 0); Enabled(c, e) && d == Step(c, e)
    ensures Trio(d) && AppResp(1, 2, 3, 2, false) in d.net && Sits(d.nodes[1], 3, Follower, TAIL)
    ensures d.nodes[2] == c.nodes[2] && d.nodes[3] == c.nodes[3]
  {
    var m, n := App(2, 1, 3, 0, 0, ONE, 0), c.nodes[1];
    assert n.log[..0] + m.entries == n.log[..1];
    TailAnswered(n, m);
    AppSound(n, m);
    hide PutEntries, PutLast, Records, TermAt;
    d := Step(c, Deliver(m, false, 0, 0));
  }

  /** Node 2 believes the answer, makes an entry of its own and commits it alone. */
  lemma TailBelieved(c0: Cluster) returns (r: Run)
    requires Trio(c0) && AppResp(1, 2, 3, 2, false) in c0.net && Sits(c0.nodes[2], 3, Leader, ONE) && c0.nodes[2].match_ == map[]
    ensures Goes(c0, r) && r.c.nodes[1] == c0.nodes[1] && r.c.nodes[3] == c0.nodes[3]
    ensures r.c.nodes[2].commit == 2 && r.c.nodes[2].log == [Entry(1, A), Entry(3, C)]
  {
    hide Goes, IsCommitPoint, SendApps;
    SendsLeave();
    r := Starts(c0);
    r := Notes(c0, r, AppResp(1, 2, 3, 2, false));
    assert Trio(r.c) by { GoesTrio(c0, r); }
    var o := Added(r.c.nodes[2], C);
    assert o.log == [Entry(1, A), Entry(3, C)];
    Both(o, 1, 2);
    r := Proposes(c0, r, 2, C, 2);
  }

  /** Node 1 leads term 4 with node 3's vote, and finds that node 3 has nothing. */
  lemma TailAgain(c0: Cluster, r: Run) returns (s: Run)
    requires Goes(c0, r) && Sits(r.c.nodes[1], 3, Follower, TAIL) && Sits(r.c.nodes[3], 3, Follower, [])
    ensures Goes(c0, s) && s.c.nodes[2] == r.c.nodes[2] && AppResp(3, 1, 4, 0, true) in s.c.net
    ensures Sits(s.c.nodes[1], 4, Leader, TAIL + [Entry(4, D)]) && s.c.nodes[1].match_ == map[] && NextOf(s.c.nodes[1], 3) == 3
    ensures Sits(s.c.nodes[3], 4, Follower, [])
  {
    hide Goes, AppOf;
    assert Trio(r.c) by { GoesTrio(c0, r); }
    s := Elects(c0, r, 1, 3);
    s := First(c0, s, 1, D);
    var n := Added(Leading(r.c.nodes[1], 3), D);
    AsApp(n, 3, 2);
    assert n.log == TAIL + [Entry(4, D)] && n.log[2..] == [Entry(4, D)];
    s := Lacks(c0, s, App(1, 3, 4, 2, 2, [Entry(4, D)], 0));
  }

  /** It sends everything, and commits the entry it had kept. */
  lemma TailEnds(c0: Cluster, r: Run) returns (s: Run)
    requires Goes(c0, r) && AppResp(3, 1, 4, 0, true) in r.c.net
    requires Sits(r.c.nodes[1], 4, Leader, TAIL + [Entry(4, D)]) && r.c.nodes[1].match_ == map[] && NextOf(r.c.nodes[1], 3) == 3
    requires Sits(r.c.nodes[3], 4, Follower, [])
    ensures Goes(c0, s) && s.c.nodes[2] == r.c.nodes[2]
    ensures s.c.nodes[1].commit == 3 && s.c.nodes[1].log == TAIL + [Entry(4, D)]
  {
    hide Goes, AppOf, Records, Batch;
    assert Trio(r.c) by { GoesTrio(c0, r); }
    var n := r.c.nodes[1];
    AllFit(n.log);
    AsApp(n, 3, 0);
    assert n.log[0..] == n.log;
    s := Resends(c0, r, AppResp(3, 1, 4, 0, true), 0);
    s := Takes(c0, s, App(1, 3, 4, 0, 0, n.log, 0));
    s := Notes(c0, s, AppResp(3, 1, 4, 3, false));
  }

  /** Between two runs with every check made, one append to a log that goes on past it makes two
      nodes commit different entries at index 2. */
  lemma TailCommitsTwo() returns (es: seq<Event>, e: Event, more: seq<Event>, d: Cluster)
    ensures CarefulRun(Initial(TRIO), es) && Enabled(After(Initial(TRIO), es), e)
    ensures var c := Step(After(Initial(TRIO), es), e); CarefulRun(c, more) && d == After(c, more)
    ensures 1 in d.nodes && d.nodes[1].commit == 3 && d.nodes[1].log == [Entry(1, A), Entry(2, B), Entry(4, D)]
    ensures 2 in d.nodes && d.nodes[2].commit == 2 && d.nodes[2].log == [Entry(1, A), Entry(3, C)]
  {
    hide CarefulRun, After, Initial, Step, Enabled;
    InitialTrio();
    var r := TailFirst(Initial(TRIO));
    r := TailOpens(Initial(TRIO), r);
    r := TailSent(Initial(TRIO), r);
    es, e := r.es, Deliver(App(2, 1, 3, 0, 0, ONE, 0), false, 0, 0);
    var b := TailHeard(r.c);
    r := TailBelieved(b);
    r := TailAgain(b, r);
    r := TailEnds(b, r);
    more, d := r.es, r.c;
  }

  // ------------------------------------------------------------- an answer of an earlier term

  const LONG: Log := [Entry(1, A), Entry(1, B), Entry(3, D)]

  lemma TwoFit()
    ensures Batch(LONG, 1, 40) == 2
  {
    assert BatchFrom(LONG, 2, 2, 34, 40) == 2;
    assert BatchFrom(LONG, 1, 1, 17, 40) == 2;
  }

  /** Node 1 leads term 3 with node 3's vote, and finds that node 3 has nothing. */
  lemma LateOpens(c0: Cluster, r: Run) returns (s: Run)
    requires Goes(c0, r) && Split(r.c)
    ensures Goes(c0, s) && r.c.net <= s.c.net && s.c.nodes[2] == r.c.nodes[2]
    ensures Vote(1, 2, 3, 2, 1) in s.c.net && AppResp(3, 1, 3, 0, true) in s.c.net
    ensures Sits(s.c.nodes[1], 3, Leader, LONG) && s.c.nodes[1].match_ == map[] && NextOf(s.c.nodes[1], 3) == 3
    ensures Sits(s.c.nodes[3], 3, Follower, [])
  {
    hide Goes, AppOf, Records;
    s := Yields(c0, r, NewNode(2).(term := 1), 1);
    var n := s.c.nodes[1];
    s := Elects(c0, s, 1, 3);
    assert Request(n, 2) == Vote(1, 2, 3, 2, 1);
    s := First(c0, s, 1, D);
    n := Added(Leading(n, 3), D);
    AsApp(n, 3, 2);
    assert n.log == LONG && LONG[2..] == [Entry(3, D)];
    s := Lacks(c0, s, App(1, 3, 3, 2, 1, [Entry(3, D)], 0));
  }

  /** It sends the two entries it was elected with; node 3 stores them, and its answer is delayed.  Node
      2's append of term 2 is refused by both. */
  lemma LateSent(c0: Cluster, r: Run) returns (s: Run)
    requires Goes(c0, r) && AppResp(3, 1, 3, 0, true) in r.c.net
    requires App(2, 1, 2, 0, 0, OTHER, 0) in r.c.net && App(2, 3, 2, 0, 0, OTHER, 0) in r.c.net
    requires Sits(r.c.nodes[1], 3, Leader, LONG) && r.c.nodes[1].match_ == map[] && NextOf(r.c.nodes[1], 3) == 3
    requires Sits(r.c.nodes[3], 3, Follower, [])
    ensures Goes(c0, s) && r.c.net <= s.c.net && s.c.nodes[2] == r.c.nodes[2]
    ensures AppResp(3, 1, 3, 2, false) in s.c.net
    ensures AppResp(1, 2, 3, 0, true) in s.c.net && AppResp(3, 2, 3, 0, true) in s.c.net
    ensures Sits(s.c.nodes[1], 3, Leader, LONG) && Sits(s.c.nodes[3], 3, Follower, FIRST)
  {
    hide Goes, Records, Batch;
    assert Trio(r.c) by { GoesTrio(c0, r); }
    TwoFit();
    assert LONG[0..2] == FIRST && [] + FIRST == FIRST;
    s := Resends(c0, r, AppResp(3, 1, 3, 0, true), 40);
    s := Takes(c0, s, App(1, 3, 3, 0, 0, FIRST, 0));
    s := Deaf(c0, s, App(2, 1, 2, 0, 0, OTHER, 0));
    s := Deaf(c0, s, App(2, 3, 2, 0, 0, OTHER, 0));
  }

  /** Node 2 leads term 4 with node 3's vote. */
  lemma LateWins(c0: Cluster, r: Run) returns (s: Run)
    requires Goes(c0, r) && Vote(1, 2, 3, 2, 1) in r.c.net
    requires Sits(r.c.nodes[2], 2, Leader, OTHER) && Sits(r.c.nodes[3], 3, Follower, FIRST)
    ensures Goes(c0, s) && r.c.net <= s.c.net && s.c.nodes[1] == r.c.nodes[1]
    ensures Sits(s.c.nodes[2], 4, Leader, OTHER) && s.c.nodes[2].match_ == map[] && s.c.nodes[2].next == map[]
    ensures s.c.nodes[2].start == 2 && Sits(s.c.nodes[3], 4, Follower, FIRST)
  {
    hide Goes;
    assert Trio(r.c) by { GoesTrio(c0, r); }
    s := Yields(c0, r, NewNode(1).(term := 2, log := FIRST, lastTerm := 1), 2);
    s := Elects(c0, s, 2, 3);
  }

  /** Having heard the refusals, it sends its entry to both. */
  lemma LateCut(c0: Cluster, r: Run) returns (s: Run)
    requires Goes(c0, r) && AppResp(1, 2, 3, 0, true) in r.c.net && AppResp(3, 2, 3, 0, true) in r.c.net
    requires Sits(r.c.nodes[2], 4, Leader, OTHER) && r.c.nodes[2].match_ == map[] && r.c.nodes[2].next == map[]
    requires r.c.nodes[2].start == 2
    ensures Goes(c0, s) && r.c.net <= s.c.net && s.c.nodes[1] == r.c.nodes[1] && s.c.nodes[3] == r.c.nodes[3]
    ensures Sits(s.c.nodes[2], 4, Leader, OTHER)
    ensures App(2, 1, 4, 0, 0, OTHER, 0) in s.c.net && App(2, 3, 4, 0, 0, OTHER, 0) in s.c.net
  {
    hide Goes, AppOf, Batch;
    assert Trio(r.c) by { GoesTrio(c0, r); }
    LastBatch(OTHER, 0);
    assert OTHER[0..] == OTHER;
    AsApp(r.c.nodes[2], 1, 0);
    s := Resends(c0, r, AppResp(1, 2, 3, 0, true), 0);
    assert Trio(s.c) by { GoesTrio(c0, s); }
    AsApp(s.c.nodes[2], 3, 0);
    s := Resends(c0, s, AppResp(3, 2, 3, 0, true), 0);
  }

  /** Node 1 leads term 5 and makes an entry at index 2. */
  lemma LateAgain(c0: Cluster, r: Run) returns (s: Run)
    requires Goes(c0, r) && App(2, 1, 4, 0, 0, OTHER, 0) in r.c.net && App(2, 3, 4, 0, 0, OTHER, 0) in r.c.net
    requires Sits(r.c.nodes[1], 3, Leader, LONG) && Sits(r.c.nodes[2], 4, Leader, OTHER) && Sits(r.c.nodes[3], 4, Follower, FIRST)
    ensures Goes(c0, s) && r.c.net <= s.c.net && s.c.nodes[2] == r.c.nodes[2] && Sits(s.c.nodes[3], 5, Follower, OTHER)
    ensures Sits(s.c.nodes[1], 5, Leader, [Entry(2, C), Entry(5, A)]) && s.c.nodes[1].match_ == map[]
  {
    hide Goes, AppOf, Records;
    assert LONG[..0] + OTHER == OTHER && FIRST[..0] + OTHER == OTHER;
    s := Takes(c0, r, App(2, 1, 4, 0, 0, OTHER, 0));
    s := Takes(c0, s, App(2, 3, 4, 0, 0, OTHER, 0));
    s := Elects(c0, s, 1, 3);
    s := First(c0, s, 1, A);
    assert OTHER + [Entry(5, A)] == [Entry(2, C), Entry(5, A)];
  }

  /** The delayed answer makes it commit that entry. */
  lemma LateHeard(c: Cluster) returns (d: Cluster)
    requires Trio(c) && AppResp(3, 1, 3, 2, false) in c.net
    requires Sits(c.nodes[1], 5, Leader, [Entry(2, C), Entry(5, A)]) && c.nodes[1].match_ == map[]
    ensures var e := Deliver(AppResp(3, 1, 3, 2, false), false, 2, 0); Enabled(c, e) && d == Step(c, e)
    ensures Trio(d) && d.nodes[1].commit == 2 && d.nodes[1].log == [Entry(2, C), Entry(5, A)]
    ensures d.nodes[2] == c.nodes[2] && d.nodes[3] == c.nodes[3]
  {
    hide HandleAppResp, IsCommitPoint;
    var m, n := AppResp(3, 1, 3, 2, false), c.nodes[1];
    Both(n.(match_ := n.match_[3 := 2]), 3, 2);
    Answered(n, m, 2);
    d := Step(c, Deliver(m, false, 2, 0));
  }

  /** Node 3 leads term 6 with node 2's vote and commits another entry there. */
  lemma LateEnds(c0: Cluster) returns (r: Run)
    requires Trio(c0) && Sits(c0.nodes[2], 4, Leader, OTHER) && Sits(c0.nodes[3], 5, Follower, OTHER)
    ensures Goes(c0, r) && r.c.nodes[1] == c0.nodes[1]
    ensures r.c.nodes[3].commit == 2 && r.c.nodes[3].log == [Entry(2, C), Entry(6, B)]
  {
    hide Goes, AppOf, Records;
    r := Starts(c0);
    r := Elects(c0, r, 3, 2);
    r := First(c0, r, 3, B);
    assert Trio(r.c) by { GoesTrio(c0, r); }
    var n := Added(Leading(c0.nodes[3], 2), B);
    assert n.log == [Entry(2, C), Entry(6, B)] && n.log[1..] == [Entry(6, B)];
    AsApp(n, 2, 1);
    r := Takes(c0, r, App(3, 2, 6, 1, 2, [Entry(6, B)], 0));
    r := Notes(c0, r, AppResp(2, 3, 6, 2, false));
  }

  /** Between two runs with every check made, one answer of an earlier term makes two nodes commit
      different entries at index 2. */
  lemma LateAnswerCommitsTwo() returns (es: seq<Event>, e: Event, more: seq<Event>, d: Cluster)
    ensures CarefulRun(Initial(TRIO), es) && Enabled(After(Initial(TRIO), es), e)
    ensures var c := Step(After(Initial(TRIO), es), e); CarefulRun(c, more) && d == After(c, more)
    ensures 1 in d.nodes && d.nodes[1].commit == 2 && d.nodes[1].log == [Entry(2, C), Entry(5, A)]
    ensures 3 in d.nodes && d.nodes[3].commit == 2 && d.nodes[3].log == [Entry(2, C), Entry(6, B)]
  {
    hide CarefulRun, After, Initial, Step, Enabled;
    InitialTrio();
    var r := Opens(Initial(TRIO));
    r := Splits(Initial(TRIO), r);
    r := LateOpens(Initial(TRIO), r);
    r := LateSent(Initial(TRIO), r);
    r := LateWins(Initial(TRIO), r);
    r := LateCut(Initial(TRIO), r);
    r := LateAgain(Initial(TRIO), r);
    es, e := r.es, Deliver(AppResp(3, 1, 3, 2, false), false, 2, 0);
    var b := LateHeard(r.c);
    r := LateEnds(b);
    more, d := r.es, r.c;
  }
}
