/** What a node gets done: who is sent what, what a leader and a follower commit, and how an election
    ends. */
module RaftProgress {
  import opened Bytes
  import opened Raft
  import opened RaftDisk
  import opened RaftHistory
  import opened RaftRepair

  // ------------------------------------------------------------------------- sending

  /** The bytes of these entries in a message: their data and 16 each. */
  function Weight(entries: Log): nat {
    if entries == [] then 0 else Weight(entries[..|entries| - 1]) + |entries[|entries| - 1].data| + 16
  }

  predicate FitsMessage(entries: Log, limit: nat) {
    |entries| <= 256 && Weight(entries) <= (if limit == 0 then 1024 * 1024 else limit)
  }

  lemma {:induction false} BatchFromIs(log: Log, first: nat, n: nat, limit: nat)
    requires first + n <= |log| && (n <= 1 || FitsMessage(log[first..first + n], limit))
    ensures var r := BatchFrom(log, first + n, n, Weight(log[first..first + n]), limit);
            && (r <= 1 || FitsMessage(log[first..first + r], limit))
            && (first + r == |log| || r == 0 || !FitsMessage(log[first..first + r + 1], limit))
    decreases |log| - (first + n)
  {
    hide Weight;
    if first + n < |log| {
      OneHeavier(log, first, n);
      assert |log[first..first + n + 1]| == n + 1;
      hide FitsMessage;
      if n < 256 && (n == 0 || Weight(log[first..first + n + 1]) <= (if limit == 0 then 1048576 else limit)) {
        assert n > 0 ==> FitsMessage(log[first..first + n + 1], limit) by { Fitting(log[first..first + n + 1], limit); }
        BatchFromIs(log, first, n + 1, limit);
      } else {
        Fitting(log[first..first + n + 1], limit);
      }
    }
  }

  lemma Fitting(entries: Log, limit: nat)
    ensures FitsMessage(entries, limit) <==> |entries| <= 256 && Weight(entries) <= (if limit == 0 then 1048576 else limit)
  {
    hide Weight;
  }

  lemma OneHeavier(log: Log, first: nat, n: nat)
    requires first + n < |log|
    ensures Weight(log[first..first + n + 1]) == Weight(log[first..first + n]) + |log[first + n].data| + 16
  {
    var more := log[first..first + n + 1];
    assert more[..n] == log[first..first + n] && more[n] == log[first + n];
  }

  /** An append has the first entry and as many of those after it as fit: no more than 256, and no more
      than the limit, which is a megabyte if none is set. */
  lemma BatchIs(log: Log, next: nat, limit: nat)
    requires 0 < next <= |log|
    ensures var first, r := next - 1, Batch(log, next, limit);
            && 0 < r && first + r <= |log|
            && (r == 1 || FitsMessage(log[first..first + r], limit))
            && (first + r == |log| || !FitsMessage(log[first..first + r + 1], limit))
  {
    assert log[next - 1..next - 1] == [];
    BatchFromIs(log, next - 1, 0, limit);
  }

  /** An append to `p` that starts behind index `k` with the term there and goes on with the log. */
  predicate StartsAt(a: Msg, n: Node, p: nat, k: nat, log: Log) {
    && a.App? && a.from == n.id && a.to == p && a.term == n.term && a.index == k && k < |log|
    && a.logTerm == (if k == 0 then 0 else log[k - 1].term)
    && a.entries != [] && a.entries <= log[k..]
  }

  function To(ms: set<Msg>, p: nat): set<Msg> {
    set m | m in ms && m.to == p
  }

  /** Among what is sent, `p` gets exactly one append, and from `k` on. */
  ghost predicate OneFrom(ms: set<Msg>, n: Node, p: nat, k: nat, log: Log) {
    exists a :: To(ms, p) == {a} && StartsAt(a, n, p, k, log)
  }

  /** A peer is sent an append if and only if it is another, nothing is on its way to it, and the log has
      something for it. */
  lemma SendReaches(n: Node, to: set<nat>, limit: nat, p: nat)
    ensures var k := if NextOf(n, p) == 0 then 0 else NextOf(n, p) - 1;
            var ms := SendApps(n, to, limit).sent;
            if p in to && p != n.id && p !in n.flight && k < |n.log| then OneFrom(ms, n, p, k, n.log) else To(ms, p) == {}
  {
    hide Batch;
    var k := if NextOf(n, p) == 0 then 0 else NextOf(n, p) - 1;
    var ms := SendApps(n, to, limit).sent;
    if p in to && CanSend(n, p) {
      var a := AppTo(n, p, limit);
      assert a in ms;
      assert To(ms, p) == {a};
      var c := Batch(n.log, SendFrom(n, p), limit);
      assert n.log[k..k + c] == n.log[k..][..c];
      assert StartsAt(a, n, p, k, n.log);
    } else {
      assert To(ms, p) == {};
    }
  }

  /** After an accepted answer the peer is at once sent what it still lacks, from the index it
      answered on, and nobody else anything. */
  lemma AnswerSendsOn(n: Node, m: Msg, voters: set<nat>, point: nat, limit: nat)
    requires n.role.Leader? && m.AppResp? && !m.reject && m.term <= n.term && m.from in voters && m.from != n.id
    ensures var ms := HandleAppResp(n, m, voters, point, limit).sent;
            && (if m.index < |n.log| then OneFrom(ms, n, m.from, m.index, n.log) else To(ms, m.from) == {})
            && (forall p :: p != m.from ==> To(ms, p) == {})
  {
    hide SendApps, OneFrom, To, TermAt;
    var b := n.(flight := n.flight - {m.from}, match_ := n.match_[m.from := m.index], next := n.next[m.from := m.index + 1]);
    var d := MaybeCommit(b, point);
    assert HandleAppResp(n, m, voters, point, limit) == SendApps(d, {m.from}, limit);
    forall p ensures if p == m.from && m.index < |n.log| then OneFrom(SendApps(d, {m.from}, limit).sent, n, p, m.index, n.log)
                     else To(SendApps(d, {m.from}, limit).sent, p) == {} {
      SendReaches(d, {m.from}, limit, p);
      SameStart(d, n, SendApps(d, {m.from}, limit).sent, p, m.index, n.log);
    }
  }

  lemma SameStart(d: Node, n: Node, ms: set<Msg>, p: nat, k: nat, log: Log)
    requires d.id == n.id && d.term == n.term
    ensures OneFrom(ms, d, p, k, log) <==> OneFrom(ms, n, p, k, log)
  {
    hide To;
    assert forall a :: StartsAt(a, d, p, k, log) <==> StartsAt(a, n, p, k, log);
  }

  /** A proposal goes to every other voter to whom nothing is on its way and whose next index the log
      reaches, and to nobody else. */
  lemma ProposalGoesOut(n: Node, data: seq<byte>, voters: set<nat>, point: nat, limit: nat, p: nat)
    requires n.role.Leader?
    ensures var k := if NextOf(n, p) == 0 then 0 else NextOf(n, p) - 1;
            var ms, log := Propose(n, data, voters, point, limit).sent, n.log + [Entry(n.term, data)];
            if p in voters && p != n.id && p !in n.flight && k <= |n.log| then OneFrom(ms, n, p, k, log) else To(ms, p) == {}
  {
    hide SendApps, OneFrom, To, TermAt;
    var e := Entry(n.term, data);
    var d := n.(log := n.log + [e], lastTerm := n.term, disk := n.disk + [Stored(|n.log| + 1, e)]);
    SendReaches(d, voters, limit, p);
    SameStart(d, n, SendApps(d, voters, limit).sent, p, if NextOf(n, p) == 0 then 0 else NextOf(n, p) - 1, d.log);
  }

  /** A heartbeat tick: every other voter hears the term and the commit index, and is sent what it lacks
      whatever is on its way. */
  lemma BeatGoesOut(n: Node, voters: set<nat>, limit: nat, p: nat)
    requires n.role.Leader? && p in voters && p != n.id
    ensures var k := if NextOf(n, p) == 0 then 0 else NextOf(n, p) - 1;
            var ms := Beat(n, voters, limit).sent;
            && Heartbeat(n.id, p, n.term, n.commit) in ms
            && var rest := ms - {Heartbeat(n.id, p, n.term, n.commit)};
               if k < |n.log| then OneFrom(rest, n, p, k, n.log) else To(rest, p) == {}
  {
    hide SendApps, TermAt, StartsAt;
    var d := n.(flight := n.flight - (voters - {n.id}));
    var beat, apps := Heartbeat(n.id, p, n.term, n.commit), SendApps(d, voters, limit).sent;
    SendReaches(d, voters, limit, p);
    SendsApps(d, voters, limit);
    var ms := Beat(n, voters, limit).sent;
    assert ms == apps + Heartbeats(n, voters);
    assert To(ms - {beat}, p) == To(apps, p);
    SameStart(d, n, apps, p, if NextOf(n, p) == 0 then 0 else NextOf(n, p) - 1, n.log);
  }

  lemma SendsApps(n: Node, to: set<nat>, limit: nat)
    ensures forall m :: m in SendApps(n, to, limit).sent ==> m.App?
  {
    hide CanSend, Batch, TermAt;
  }

  // ------------------------------------------------------------------------- commits

  /** More than half of the voters have the log up to `k`, as far as the leader knows. */
  ghost predicate MostHave(n: Node, voters: set<nat>, k: nat) {
    2 * |Reached(n, voters, k)| > |voters|
  }

  lemma MostIsQuorum(n: Node, voters: set<nat>, k: nat)
    ensures MostHave(n, voters, k) <==> |Reached(n, voters, k)| >= QuorumSize(|voters|)
  {
  }

  /** The terms of a leader's log do not fall and end with its own at most, and it credits nobody with
      more than it has. */
  ghost predicate InOrder(n: Node, voters: set<nat>) {
    && (forall i, j :: 0 <= i <= j < |n.log| ==> n.log[i].term <= n.log[j].term <= n.term)
    && (forall v :: v in voters ==> MatchOf(n, v) <= |n.log|)
  }

  /** Index `k` can be committed: it, or an index behind it, is of the leader's term and most have it. */
  ghost predicate Committable(n: Node, voters: set<nat>, k: nat) {
    exists j :: k <= j <= |n.log| && 0 < j && n.log[j - 1].term == n.term && MostHave(n, voters, j)
  }

  lemma CommitIff(n: Node, voters: set<nat>, point: nat, k: nat)
    requires n.role.Leader? && InOrder(n, voters) && IsCommitPoint(n, voters, point) && n.term > 0
    ensures MaybeCommit(n, point).commit >= k <==> k <= n.commit || Committable(n, voters, k)
  {
    hide Reached;
    MostIsQuorum(n, voters, point);
    if Committable(n, voters, k) {
      var j :| k <= j <= |n.log| && 0 < j && n.log[j - 1].term == n.term && MostHave(n, voters, j);
      MostIsQuorum(n, voters, j);
      PointInside(n, voters, point);
      assert j <= point;
      assert n.log[j - 1].term <= n.log[point - 1].term;
    }
    if n.commit < k <= MaybeCommit(n, point).commit {
      assert n.log[point - 1].term == n.term && MostHave(n, voters, point);
    }
  }

  lemma PointInside(n: Node, voters: set<nat>, point: nat)
    requires InOrder(n, voters) && IsCommitPoint(n, voters, point)
    ensures point <= |n.log|
  {
    assert point > |n.log| ==> Reached(n, voters, point) == {};
  }

  /** After an accepted answer, what is committed is what was and what most now have, up to an entry of
      the leader's term. */
  lemma AnswerCommitsIff(n: Node, m: Msg, voters: set<nat>, point: nat, limit: nat, k: nat)
    requires n.role.Leader? && m.AppResp? && !m.reject && m.term <= n.term && m.from in voters && n.term > 0
    requires InOrder(n.(match_ := n.match_[m.from := m.index]), voters)
    requires IsCommitPoint(n.(match_ := n.match_[m.from := m.index]), voters, point)
    ensures HandleAppResp(n, m, voters, point, limit).node.commit >= k
            <==> k <= n.commit || Committable(n.(match_ := n.match_[m.from := m.index]), voters, k)
  {
    hide SendApps, TermAt, IsCommitPoint, InOrder, Committable;
    SendsLeave();
    CommitIff(n.(match_ := n.match_[m.from := m.index]), voters, point, k);
  }

  /** So does a proposal, with the new entry counted. */
  lemma ProposalCommitsIff(n: Node, data: seq<byte>, voters: set<nat>, point: nat, limit: nat, k: nat)
    requires n.role.Leader? && n.term > 0
    requires InOrder(n.(log := n.log + [Entry(n.term, data)]), voters)
    requires IsCommitPoint(n.(log := n.log + [Entry(n.term, data)]), voters, point)
    ensures Propose(n, data, voters, point, limit).node.commit >= k
            <==> k <= n.commit || Committable(n.(log := n.log + [Entry(n.term, data)]), voters, k)
  {
    hide SendApps, TermAt, IsCommitPoint, InOrder, Committable;
    SendsLeave();
    CommitIff(n.(log := n.log + [Entry(n.term, data)]), voters, point, k);
  }

  /** A node that is the only voter commits what it is asked to at once. */
  lemma AloneCommits(n: Node, data: seq<byte>, point: nat, limit: nat)
    requires n.role.Leader? && n.commit <= |n.log|
    requires IsCommitPoint(n.(log := n.log + [Entry(n.term, data)]), {n.id}, point)
    ensures Propose(n, data, {n.id}, point, limit).node.commit == |n.log| + 1
  {
    hide SendApps;
    SendsLeave();
    var d := n.(log := n.log + [Entry(n.term, data)]);
    assert Reached(d, {n.id}, |d.log|) == {n.id};
    assert point > |d.log| ==> Reached(d, {n.id}, point) == {};
    assert point >= |d.log|;
  }

  /** A follower commits what an accepted append or a heartbeat says, as far as its log goes, and takes
      nothing back. */
  lemma FollowerCommits(n: Node, m: Msg)
    requires m.App? || m.Heartbeat?
    ensures m.App? ==>
              var o := HandleApp(n, m).node;
              o.commit == if Accepts(n, m) then Max(n.commit, Min(m.commit, |o.log|)) else n.commit
    ensures m.Heartbeat? ==>
              HandleHeartbeat(n, m).node.commit == if m.term >= n.term then Max(n.commit, Min(m.commit, |n.log|)) else n.commit
  {
    hide PutEntries, PutLast;
  }

  // ----------------------------------------------------------------------- elections

  lemma {:induction false} MoreVotes(voters: set<nat>, a: set<nat>, b: set<nat>)
    requires HasQuorum(voters, a) && a <= b
    ensures HasQuorum(voters, b)
  {
    SubsetSize(voters * a, voters * b);
  }

  /** A quorum is more than half of the voters. */
  lemma QuorumIsMost(voters: set<nat>, votes: set<nat>)
    ensures HasQuorum(voters, votes) <==> 2 * |voters * votes| > |voters|
  {
    if voters == {} { assert voters * votes == {}; }
  }

  /** A candidate after these voters' grants of its term, in this order. */
  function Heard(n: Node, froms: seq<nat>, voters: set<nat>): Node
    decreases |froms|
  {
    if froms == [] then n
    else Heard(HandleVoteResp(n, VoteResp(froms[0], n.id, n.term, false), voters).node, froms[1..], voters)
  }

  /** A candidate comes to lead if and only if the votes it has and those it hears of are a quorum, in
      whatever order and however often they arrive. */
  lemma {:induction false} LeadsIff(n: Node, froms: seq<nat>, voters: set<nat>)
    requires (n.role.Candidate? && !HasQuorum(voters, n.votes)) || (n.role.Leader? && HasQuorum(voters, n.votes))
    ensures var o := Heard(n, froms, voters);
            && (o.role.Leader? <==> HasQuorum(voters, n.votes + AsSet(froms)))
            && (o.role.Leader? || o.role.Candidate?) && o.term == n.term && o.log == n.log
    decreases |froms|
  {
    hide HasQuorum;
    if froms == [] {
      assert n.votes + AsSet(froms) == n.votes;
    } else {
      var o := HandleVoteResp(n, VoteResp(froms[0], n.id, n.term, false), voters).node;
      assert AsSet(froms) == {froms[0]} + AsSet(froms[1..]);
      LeadsIff(o, froms[1..], voters);
      if n.role.Leader? {
        MoreVotes(voters, n.votes, n.votes + AsSet(froms));
        MoreVotes(voters, n.votes, n.votes + AsSet(froms[1..]));
      } else {
        assert n.votes + {froms[0]} + AsSet(froms[1..]) == n.votes + AsSet(froms);
      }
    }
  }

  /** A timeout without pre-vote, or a leader's order to take over: the next term, the own vote, and a
      request to every other voter that tells the end of the log; the only voter leads at once. */
  lemma Stands(n: Node, voters: set<nat>, p: nat)
    requires !n.role.Leader?
    ensures var o := Hup(n, voters, false);
            && TimeoutNow(n, voters) == o
            && o.node.term == n.term + 1 && o.node.vote == n.id && o.node.votes == {n.id} && o.node.log == n.log
            && (if HasQuorum(voters, {n.id}) then o.node.role.Leader? else o.node.role.Candidate?)
            && (!HasQuorum(voters, {n.id}) && p in voters && p != n.id ==>
                  To(o.sent, p) == {Vote(n.id, p, n.term + 1, |n.log|, n.lastTerm)})
  {
    hide HasQuorum;
    var o := Hup(n, voters, false);
    if !HasQuorum(voters, {n.id}) && p in voters && p != n.id {
      assert Vote(n.id, p, n.term + 1, |n.log|, n.lastTerm) in o.sent;
    }
  }

  /** So a node that stands leads its next term if and only if the grants it hears and its own make a
      quorum. */
  lemma ElectedIff(n: Node, froms: seq<nat>, voters: set<nat>)
    requires !n.role.Leader?
    ensures var o := Heard(Hup(n, voters, false).node, froms, voters);
            o.term == n.term + 1 && (o.role.Leader? <==> HasQuorum(voters, {n.id} + AsSet(froms)))
  {
    hide HasQuorum, Heard;
    Stands(n, voters, 0);
    LeadsIff(Hup(n, voters, false).node, froms, voters);
  }

  /** A log that ends in a later term, or in the same one and is no shorter. */
  predicate NoOlder(index: nat, term: nat, size: nat, last: nat) {
    term > last || (term == last && index >= size)
  }

  /** A vote is granted if and only if the request is of no earlier term, the voter has not voted for
      another in it, and its log ends no later; asked again, the voter says the same. */
  lemma VoteGrantedIff(n: Node, m: Msg)
    requires m.Vote?
    ensures var o := HandleVote(n, m);
            && |o.sent| == 1
            && (VoteResp(n.id, m.from, m.term, false) in o.sent
                <==> m.term >= n.term && (m.term > n.term || n.vote in {0, m.from}) && NoOlder(m.index, m.logTerm, |n.log|, n.lastTerm))
            && (m.from != 0 ==> HandleVote(o.node, m) == o)
  {
  }

  /** A pre-vote is granted if and only if no live leader is known and the vote itself would be to one
      who has not voted; it changes nothing at the voter. */
  lemma PreVoteForecasts(n: Node, m: Msg, busy: bool)
    requires m.PreVote?
    ensures var o := HandlePreVote(n, m, busy);
            && o.node == n && |o.sent| == 1
            && (PreVoteResp(n.id, m.from, m.term, false) in o.sent
                <==> !busy && VoteResp(n.id, m.from, m.term, false)
                              in HandleVote(n.(vote := 0), Vote(m.from, m.to, m.term, m.index, m.logTerm)).sent)
  {
  }

  /** A pre-candidate after these voters' pre-votes, in this order. */
  function PreHeard(n: Node, froms: seq<nat>, t: nat, voters: set<nat>): Node
    decreases |froms|
  {
    if froms == [] then n
    else PreHeard(HandlePreVoteResp(n, PreVoteResp(froms[0], n.id, t, false), voters).node, froms[1..], t, voters)
  }

  lemma {:induction false} Ignores(n: Node, froms: seq<nat>, t: nat, voters: set<nat>)
    requires !n.role.PreCandidate?
    ensures PreHeard(n, froms, t, voters) == n
    decreases |froms|
  {
    if froms != [] { Ignores(n, froms[1..], t, voters); }
  }

  /** A pre-candidate stands in the next term if and only if its pre-votes make a quorum; until then it
      keeps its term and its vote. */
  lemma {:induction false} PreStandsIff(n: Node, froms: seq<nat>, t: nat, voters: set<nat>)
    requires n.role.PreCandidate? && !HasQuorum(voters, n.votes) && !HasQuorum(voters, {n.id})
    ensures var o := PreHeard(n, froms, t, voters);
            if HasQuorum(voters, n.votes + AsSet(froms)) then o.role.Candidate? && o.term == n.term + 1 && o.vote == n.id
            else o.role.PreCandidate? && o.term == n.term && o.vote == n.vote
    decreases |froms|
  {
    hide HasQuorum;
    if froms == [] {
      assert n.votes + AsSet(froms) == n.votes;
    } else {
      var o := HandlePreVoteResp(n, PreVoteResp(froms[0], n.id, t, false), voters).node;
      assert AsSet(froms) == {froms[0]} + AsSet(froms[1..]);
      assert n.votes + {froms[0]} + AsSet(froms[1..]) == n.votes + AsSet(froms);
      if HasQuorum(voters, n.votes + {froms[0]}) {
        Ignores(o, froms[1..], t, voters);
        MoreVotes(voters, n.votes + {froms[0]}, n.votes + AsSet(froms));
      } else {
        PreStandsIff(o, froms[1..], t, voters);
      }
    }
  }

  /** A timeout with pre-vote asks every other voter without changing term or vote; the only voter leads
      at once. */
  lemma PreStands(n: Node, voters: set<nat>, p: nat)
    requires !n.role.Leader?
    ensures var o := Hup(n, voters, true);
            if HasQuorum(voters, {n.id}) then o.node.role.Leader? && o.node.term == n.term + 1
            else && o.node == n.(role := PreCandidate, votes := {n.id})
                 && (p in voters && p != n.id ==> To(o.sent, p) == {PreVote(n.id, p, n.term + 1, |n.log|, n.lastTerm)})
  {
    hide HasQuorum;
    var o := Hup(n, voters, true);
    if !HasQuorum(voters, {n.id}) && p in voters && p != n.id {
      assert PreVote(n.id, p, n.term + 1, |n.log|, n.lastTerm) in o.sent;
    }
  }

  /** A restart keeps term, vote and commit index and follows. */
  lemma RestartKeeps(n: Node)
    ensures var o := Restarted(n);
            && o.id == n.id && o.term == n.term && o.vote == n.vote && o.commit == n.commit && o.disk == n.disk
            && o.role.Follower? && o.votes == {} && o.match_ == map[]
  {
    hide Replayed;
  }
}
