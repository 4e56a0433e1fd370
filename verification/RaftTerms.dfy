/** How a node's term, role and bookkeeping change with each message, whatever it is. */
module RaftTerms {
  import opened Bytes
  import opened Raft
  import opened RaftDisk
  import opened RaftElection
  import opened RaftHistory
  import opened RaftProgress

  // ---------------------------------------------------------------------- term and role

  /** Messages whose term binds: all but a request for a pre-vote and one that is granted, and an
      answer to an append only at a leader. */
  predicate Binds(n: Node, m: Msg) {
    match m
    case PreVote(_, _, _, _, _) => false
    case PreVoteResp(_, _, _, reject) => reject
    case AppResp(_, _, _, _, _) => n.role.Leader?
    case _ => true
  }

  /** A granted pre-vote that makes a pre-candidate a candidate. */
  predicate Promotes(n: Node, m: Msg, voters: set<nat>) {
    m.PreVoteResp? && !m.reject && n.role.PreCandidate? && HasQuorum(voters, n.votes + {m.from})
  }

  /** The term after a message: the later of the two where the message binds, one more for a
      pre-candidate that is promoted, and unchanged otherwise. */
  lemma TermAfter(n: Node, m: Msg, voters: set<nat>, busy: bool, point: nat, limit: nat)
    ensures Received(n, m, voters, busy, point, limit).node.term
         == if Promotes(n, m, voters) then n.term + 1
            else if Binds(n, m) then Max(n.term, m.term)
            else n.term
  {
    hide PutEntries, PutLast, Records, HasQuorum, TermAt, NoWorse, AppTo, CanSend;
  }

  /** Whoever learns of a later term follows, with no vote given in it but to the one who asks for
      it. */
  lemma StepsDown(n: Node, m: Msg, voters: set<nat>, busy: bool, point: nat, limit: nat)
    requires m.term > n.term && Binds(n, m)
    ensures var o := Received(n, m, voters, busy, point, limit).node;
            o.role.Follower? && (o.vote == 0 || (m.Vote? && o.vote == m.from))
  {
    hide PutEntries, PutLast, Records, HasQuorum, TermAt, NoWorse;
  }

  /** A leader of the term, heard of by an append or a heartbeat, is followed. */
  lemma Follows(n: Node, m: Msg, voters: set<nat>, busy: bool, point: nat, limit: nat)
    requires m.term >= n.term && (m.App? || m.Heartbeat?)
    ensures var o := Received(n, m, voters, busy, point, limit).node;
            o.role.Follower? && o.vote == if m.term > n.term then 0 else n.vote
  {
    hide PutEntries, PutLast, Records, TermAt;
  }

  /** Requests, appends and heartbeats of an earlier term are refused and change nothing. */
  lemma EarlierRefused(n: Node, m: Msg, voters: set<nat>, busy: bool, point: nat, limit: nat)
    requires m.term < n.term
    ensures var o := Received(n, m, voters, busy, point, limit);
            && (m.Vote? ==> o == Out(n, {VoteResp(n.id, m.from, n.term, true)}))
            && (m.PreVote? ==> o == Out(n, {PreVoteResp(n.id, m.from, n.term, true)}))
            && (m.App? ==> o == Out(n, {AppResp(n.id, m.from, n.term, 0, true)}))
            && (m.Heartbeat? ==> o == Out(n, {}))
  {
    hide HandleAppResp, HandleVoteResp, HandlePreVoteResp;
  }

  /** Answers that change nothing: a refused vote, any answer to a node that did not ask, and the
      answer of one that is no voter. */
  lemma AnswersIgnored(n: Node, m: Msg, voters: set<nat>, busy: bool, point: nat, limit: nat)
    requires m.term <= n.term
    ensures var o := Received(n, m, voters, busy, point, limit);
            && (m.VoteResp? && (m.reject || !n.role.Candidate?) ==> o == Out(n, {}))
            && (m.PreVoteResp? && (m.reject || !n.role.PreCandidate?) ==> o == Out(n, {}))
            && (m.AppResp? && (!n.role.Leader? || m.from !in voters) ==> o == Out(n, {}))
  {
    hide HandleVote, HandlePreVote, HandleApp, HandleHeartbeat, SendApps, HasQuorum;
  }

  // ------------------------------------------------------------------------- a new leader

  /** Each other voter is told that there is a leader. */
  ghost predicate Announced(o: Out, voters: set<nat>) {
    && (forall p :: p in voters && p != o.node.id ==> Heartbeat(o.node.id, p, o.node.term, o.node.commit) in o.sent)
    && (forall m :: m in o.sent ==> m.Heartbeat? && m.to in voters && m.to != o.node.id)
  }

  /** A node that becomes leader by a vote has matched nobody, sends next what would follow its log,
      has nothing on its way, and announces itself. */
  lemma FreshLeader(n: Node, m: Msg, voters: set<nat>, p: nat)
    requires m.VoteResp? && n.role.Candidate? && HandleVoteResp(n, m, voters).node.role.Leader?
    ensures var o := HandleVoteResp(n, m, voters);
            && MatchNoted(o.node, p) == 0 && NextOf(o.node, p) == |n.log| + 1 && o.node.flight == {}
            && o.node.log == n.log && o.node.commit == n.commit && o.node.disk == n.disk
            && Announced(o, voters)
  {
    hide HasQuorum;
  }

  /** Asked to stand, a leader does nothing. */
  lemma LeaderStays(n: Node, voters: set<nat>, preVote: bool)
    requires n.role.Leader?
    ensures Hup(n, voters, preVote) == TimeoutNow(n, voters) == Out(n, {})
  {
  }

  // --------------------------------------------------------------------- the leader's books

  /** A refusal takes back what the leader thought the peer had: next and matched index go down to
      the hint, never up, and an append starts there. */
  lemma RefusalBacksUp(n: Node, m: Msg, voters: set<nat>, point: nat, limit: nat, p: nat)
    requires n.role.Leader? && m.AppResp? && m.reject && m.term <= n.term && m.from in voters && m.from != n.id
    ensures var o := HandleAppResp(n, m, voters, point, limit);
            var k := if NextOf(o.node, m.from) == 0 then 0 else NextOf(o.node, m.from) - 1;
            && NextOf(o.node, m.from) == Min(NextOf(n, m.from), m.index + 1)
            && MatchNoted(o.node, m.from) == Min(MatchNoted(n, m.from), m.index)
            && (p != m.from ==> NextOf(o.node, p) == NextOf(n, p) && MatchNoted(o.node, p) == MatchNoted(n, p) && To(o.sent, p) == {})
            && (if k < |n.log| then OneFrom(o.sent, n, m.from, k, n.log) else To(o.sent, m.from) == {})
            && o.node.log == n.log && o.node.commit == n.commit
  {
    var d := Backed(n, m);
    assert HandleAppResp(n, m, voters, point, limit) == SendApps(d, {m.from}, limit);
    BackedIs(n, m, p);
    hide HandleAppResp, Backed;
    var ms := SendApps(d, {m.from}, limit).sent;
    var k := if NextOf(d, m.from) == 0 then 0 else NextOf(d, m.from) - 1;
    SendReaches(d, {m.from}, limit, m.from);
    SendReaches(d, {m.from}, limit, p);
    SameStart(d, n, ms, m.from, k, n.log);
    SendKeeps(d, {m.from}, limit, m.from);
    SendKeeps(d, {m.from}, limit, p);
    hide OneFrom, To, SendApps, NextOf, MatchNoted;
  }

  /** The leader with its books set back. */
  function Backed(n: Node, m: Msg): Node
    requires m.AppResp?
  {
    var a := n.(flight := n.flight - {m.from});
    var b := if m.index + 1 < NextOf(a, m.from) then a.(next := a.next[m.from := m.index + 1]) else a;
    if m.index < MatchNoted(b, m.from) then b.(match_ := b.match_[m.from := m.index]) else b
  }

  lemma BackedIs(n: Node, m: Msg, p: nat)
    requires m.AppResp?
    ensures var d := Backed(n, m);
            && NextOf(d, m.from) == Min(NextOf(n, m.from), m.index + 1)
            && MatchNoted(d, m.from) == Min(MatchNoted(n, m.from), m.index)
            && (p != m.from ==> NextOf(d, p) == NextOf(n, p) && MatchNoted(d, p) == MatchNoted(n, p))
            && d.log == n.log && d.commit == n.commit && d.id == n.id && d.term == n.term && m.from !in d.flight
  {
  }

  lemma SendKeeps(n: Node, to: set<nat>, limit: nat, p: nat)
    ensures var o := SendApps(n, to, limit).node;
            && NextOf(o, p) == NextOf(n, p) && MatchNoted(o, p) == MatchNoted(n, p)
            && o.log == n.log && o.commit == n.commit
  {
    hide AppTo, CanSend;
  }

  /** An accepted answer is noted as it is, and nothing else of the books. */
  lemma AcceptanceNoted(n: Node, m: Msg, voters: set<nat>, point: nat, limit: nat, p: nat)
    requires n.role.Leader? && m.AppResp? && !m.reject && m.term <= n.term && m.from in voters
    ensures var o := HandleAppResp(n, m, voters, point, limit).node;
            && NextOf(o, p) == (if p == m.from then m.index + 1 else NextOf(n, p))
            && MatchNoted(o, p) == (if p == m.from then m.index else MatchNoted(n, p))
            && o.log == n.log && o.disk == n.disk && o.role.Leader?
  {
    hide AppTo, CanSend, TermAt;
  }

  /** A proposal is added to the log and stored, at a leader; elsewhere nothing happens. */
  lemma ProposalLands(n: Node, data: seq<byte>, voters: set<nat>, point: nat, limit: nat)
    ensures var o := Propose(n, data, voters, point, limit);
            if n.role.Leader? then
              && o.node.log == n.log + [Entry(n.term, data)] && o.node.lastTerm == n.term
              && o.node.disk == n.disk + [Stored(|n.log| + 1, Entry(n.term, data))]
              && o.node.term == n.term && o.node.role.Leader?
            else o == Out(n, {})
  {
    hide AppTo, CanSend, TermAt;
  }

  // ------------------------------------------------------------------ what is on its way

  /** What is sent to a peer is on its way, and nothing more is sent until it answers. */
  lemma OnItsWay(n: Node, to: set<nat>, limit: nat, p: nat)
    ensures var o := SendApps(n, to, limit);
            && (p in o.node.flight <==> p in n.flight || To(o.sent, p) != {})
            && (p in n.flight ==> To(o.sent, p) == {})
  {
    SendReaches(n, to, limit, p);
    hide AppTo, StartsAt;
  }

  /** An answer ends the wait for its sender, and only for that one. */
  lemma AnswerEndsWait(n: Node, m: Msg, voters: set<nat>, point: nat, limit: nat, p: nat)
    requires n.role.Leader? && m.AppResp? && m.term <= n.term && m.from in voters
    ensures var o := HandleAppResp(n, m, voters, point, limit);
            p in o.node.flight <==> (p != m.from && p in n.flight) || To(o.sent, p) != {}
  {
    var d := if m.reject then Backed(n, m)
             else MaybeCommit(n.(flight := n.flight - {m.from}, match_ := n.match_[m.from := m.index],
                                 next := n.next[m.from := m.index + 1]), point);
    assert HandleAppResp(n, m, voters, point, limit) == SendApps(d, {m.from}, limit);
    assert d.flight == n.flight - {m.from};
    hide HandleAppResp, SendApps, Backed, MaybeCommit, To;
    OnItsWay(d, {m.from}, limit, p);
  }

  /** A proposal ends no wait. */
  lemma ProposalWaits(n: Node, data: seq<byte>, voters: set<nat>, point: nat, limit: nat, p: nat)
    ensures var o := Propose(n, data, voters, point, limit);
            p in o.node.flight <==> p in n.flight || (n.role.Leader? && To(o.sent, p) != {})
  {
    var e := Entry(n.term, data);
    var s := n.(log := n.log + [e], lastTerm := n.term, disk := n.disk + [Stored(|n.log| + 1, e)]);
    assert n.role.Leader? ==> Propose(n, data, voters, point, limit).sent == SendApps(s, voters, limit).sent;
    OnItsWay(s, voters, limit, p);
    hide AppTo, To, CanSend, TermAt;
  }

  /** A beat ends every wait: what is on its way then is what the peer lacks. */
  lemma BeatEndsWait(n: Node, voters: set<nat>, limit: nat, p: nat)
    requires n.role.Leader? && p in voters && p != n.id
    ensures p in Beat(n, voters, limit).node.flight <==> NextOf(n, p) <= |n.log| && n.log != []
  {
    hide AppTo;
  }
}
