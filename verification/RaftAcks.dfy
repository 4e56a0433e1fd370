/** What a node has held it keeps, as long as every leader in between had it too. */
module RaftAcks {
  import opened Bytes
  import opened Raft
  import opened RaftElection
  import opened RaftDisk
  import opened RaftLog
  import opened RaftHistory
  import opened RaftBallots

  /** Node `v` has held the leader's log of term `t` up to the entry `k` of that term. */
  predicate Held(c: Cluster, h: History, v: nat, t: nat, k: nat) {
    (v, t) in h.acked && (k, t) in c.made && k <= h.acked[(v, t)]
  }

  /** Every leader of a term between `t` and `u` was elected with the log of `t` up to `k`. */
  ghost predicate Clean(c: Cluster, h: History, k: nat, t: nat, u: nat)
    requires (k, t) in c.made
  {
    forall s :: s in c.won && t < s < u ==> s in h.elected && c.made[(k, t)] <= h.elected[s]
  }

  ghost predicate AckOk(c: Cluster, h: History, v: nat, t: nat) {
    (v, t) in h.acked ==>
      v in c.nodes && t in c.won && t <= c.nodes[v].term && t in h.reign && h.acked[(v, t)] <= |h.reign[t]|
  }

  /** What a leader believes of the others' logs is true. */
  ghost predicate LeaderKnows(h: History, n: Node) {
    n.role.Leader? ==>
      && Ack(h, n.id, n.term) == |n.log|
      && (forall v :: v in n.match_ && v != n.id ==> n.match_[v] <= Ack(h, v, n.term))
  }

  ghost predicate AnswerOk(h: History, m: Msg) {
    m.AppResp? && !m.reject ==> m.index <= Ack(h, m.from, m.term)
  }

  ghost predicate KeptNow(c: Cluster, h: History, v: nat, t: nat, k: nat) {
    v in c.nodes && Held(c, h, v, t, k) && Clean(c, h, k, t, c.nodes[v].term + 1) ==> c.made[(k, t)] <= c.nodes[v].log
  }

  ghost predicate KeptThen(c: Cluster, h: History, v: nat, u: nat, t: nat, k: nat) {
    (v, u) in h.ballot && Held(c, h, v, t, k) && t < u && Clean(c, h, k, t, u) ==> c.made[(k, t)] <= h.ballot[(v, u)]
  }

  ghost predicate Acks(c: Cluster, h: History) {
    && (forall v, t :: AckOk(c, h, v, t))
    && (forall i :: i in c.nodes ==> LeaderKnows(h, c.nodes[i]))
    && (forall m :: m in c.net ==> AnswerOk(h, m))
    && (forall v, t, k :: KeptNow(c, h, v, t, k))
    && (forall v, u, t, k :: KeptThen(c, h, v, u, t, k))
  }

  lemma CleanBefore(c: Cluster, h: History, d: Cluster, g: History, k: nat, t: nat, u: nat, w: nat)
    requires (k, t) in c.made && Extends(c.made, d.made) && Lasting(c, h, g) && w <= u
    requires (forall s :: s in c.won ==> s in d.won) && (k, t) in d.made && Clean(d, g, k, t, u)
    ensures Clean(c, h, k, t, w)
  {
    assert c.made[(k, t)] == d.made[(k, t)];
  }

  /** A common prefix of the log and the leader's log survives an append from that leader. */
  lemma PrefixSurvives(p: Log, log: Log, whole: Log, after: Log, reign: Log)
    requires p <= log && p <= reign && whole <= reign && whole <= after && (after == log || after == whole)
    requires whole <= log ==> after == log
    ensures p <= after
  {
    if |whole| >= |p| {
      assert p == reign[..|p|] == whole[..|p|];
    } else {
      assert whole == reign[..|whole|] == p[..|whole|];
    }
  }

  /** After an append that ends right, the follower's log is part of the leader's. */
  lemma InReign(c: Cluster, h: History, n: Node, m: Msg, log: Log)
    requires m.App? && Accepts(n, m) && LogOk(c.made, n.log) && AppOk(c.made, m) && Reigns(c, h)
    requires m.term in c.won && Whole(c.made, m, h.reign[m.term])
    requires log == PutEntries(n.log, m.index + 1, m.entries) && LogOk(c.made, log) && EndsRight(log, m)
    ensures log <= h.reign[m.term]
  {
    hide ReignOk, PutEntries, Accepts, Whole;
    Appended(c.made, n, m, h.reign[m.term]);
    if |log| != m.index + |m.entries| && log != [] {
      assert PrefixOf(c.made, log, |log|);
      assert MadeIn(c.made, h.elected[m.term], h.reign[m.term], |log|, m.term);
    }
  }

  // ------------------------------------------------------------- what was held is kept

  /** Everything the lemmas below use of a step. */
  ghost predicate Between(c: Cluster, h: History, e: Event, d: Cluster, g: History, n: Node, o: Node) {
    && Shape(c, h, e, d, g, n, o) && Reigns(c, h) && MadeOk(c) && InTerm(c, h, n) && Extends(c.made, d.made)
    && LogOk(c.made, n.log) && LogOk(d.made, o.log) && (ComesToLead(n, o) ==> o.term !in c.won)
    && Lasting(c, h, g) && Acks(c, h)
    && (e.Deliver? && e.m.App? && Accepts(n, e.m) ==>
          && e.m.term in c.won && e.m.term in h.reign && AppOk(c.made, e.m) && Whole(c.made, e.m, h.reign[e.m.term])
          && EndsRight(o.log, e.m))
  }

  lemma MadeBefore(c: Cluster, h: History, e: Event, d: Cluster, g: History, n: Node, o: Node, v: nat, t: nat, k: nat)
    requires Between(c, h, e, d, g, n, o) && Held(d, g, v, t, k) && v != Actor(e)
    ensures Held(c, h, v, t, k)
  {
    hide LogOk, VoteFrom, FirstVote, ReignOk, Extends, Lasting, KeptNow, KeptThen, AnswerOk, Clean, LogStep, AppOk,
         Whole, MadeOk;
    assert AckOk(c, h, v, t);
  }

  /** For another node nothing changes. */
  lemma OtherKeeps(c: Cluster, h: History, e: Event, d: Cluster, g: History, n: Node, o: Node, v: nat, t: nat, k: nat)
    requires Between(c, h, e, d, g, n, o) && v != Actor(e)
    ensures KeptNow(d, g, v, t, k)
  {
    hide LogOk, VoteFrom, FirstVote, Reigns, KeptThen, AnswerOk, Clean, LogStep, AppOk, Whole, MadeOk, Accepts,
         EndsRight, AckOk, HoldsAll;
    if v in d.nodes && Held(d, g, v, t, k) && Clean(d, g, k, t, d.nodes[v].term + 1) {
      MadeBefore(c, h, e, d, g, n, o, v, t, k);
      CleanBefore(c, h, d, g, k, t, d.nodes[v].term + 1, c.nodes[v].term + 1);
      assert KeptNow(c, h, v, t, k);
    }
  }

  lemma ProposerKeeps(c: Cluster, h: History, e: Event, d: Cluster, g: History, n: Node, o: Node, t: nat, k: nat)
    requires Between(c, h, e, d, g, n, o) && e.ProposeAt? && n.role.Leader?
    ensures KeptNow(d, g, Actor(e), t, k)
  {
    hide LogOk, VoteFrom, FirstVote, ReignOk, KeptThen, AnswerOk, Clean, AppOk, Whole, MadeOk, EndsRight, AckOk,
         Lasting, LeaderKnows, Accepts;
    var v := Actor(e);
    if Held(d, g, v, t, k) && Clean(d, g, k, t, d.nodes[v].term + 1) && (k, t) in c.made && t != n.term {
      CleanBefore(c, h, d, g, k, t, d.nodes[v].term + 1, n.term + 1);
      assert KeptNow(c, h, v, t, k);
    }
  }

  /** An accepted append, in the terms the next lemmas need. */
  lemma AppendStep(c: Cluster, h: History, e: Event, d: Cluster, g: History, n: Node, o: Node)
    requires Between(c, h, e, d, g, n, o) && e.Deliver? && e.m.App? && Accepts(n, e.m)
    ensures d.made == c.made && d.nodes == c.nodes[Actor(e) := o] && n.term <= e.m.term == o.term && d.won == c.won
    ensures Actor(e) in c.nodes && c.nodes[Actor(e)] == n
    ensures o.log == PutEntries(n.log, e.m.index + 1, e.m.entries) && LogOk(c.made, o.log) && o.log <= h.reign[e.m.term]
    ensures forall v, t ::
              Ack(g, v, t) == if v == Actor(e) && t == o.term && Ack(h, v, t) < |o.log| then |o.log| else Ack(h, v, t)
    ensures forall v, t :: (v, t) in g.acked ==> (v, t) in h.acked || (v == Actor(e) && t == o.term)
  {
    hide LogOk, VoteFrom, FirstVote, Acks, AppOk, Whole, MadeOk, EndsRight, PutEntries, Extends, Lasting, Reigns,
         InTerm;
    InReign(c, h, n, e.m, o.log);
  }

  lemma FollowerKeeps(c: Cluster, h: History, e: Event, d: Cluster, g: History, n: Node, o: Node, t: nat, k: nat)
    requires Between(c, h, e, d, g, n, o) && e.Deliver? && e.m.App? && Accepts(n, e.m)
    ensures KeptNow(d, g, Actor(e), t, k)
  {
    hide Shape, LogOk, KeptThen, AnswerOk, Clean, AppOk, Whole, MadeOk, EndsRight, PutEntries, Accepts, Extends,
         LeaderKnows, InTerm, ReignOk, Lasting, ComesToLead;
    var v, u := Actor(e), e.m.term;
    AppendStep(c, h, e, d, g, n, o);
    if Held(d, g, v, t, k) && Clean(d, g, k, t, d.nodes[v].term + 1) {
      var p := c.made[(k, t)];
      Appended(c.made, n, e.m, h.reign[u]);
      assert Ack(g, v, t) == g.acked[(v, t)];
      if t == u && k <= |o.log| {
        assert MadeIn(c.made, h.elected[u], h.reign[u], k, u);
      } else {
        assert k > 0 by { assert MadeIn(c.made, h.elected[t], h.reign[t], k, t); }
        assert Held(c, h, v, t, k) && AckOk(c, h, v, t);
        CleanBefore(c, h, d, g, k, t, d.nodes[v].term + 1, n.term + 1);
        assert KeptNow(c, h, v, t, k);
        PrefixInReign(c, h, d, g, k, t, u);
        PrefixSurvives(p, n.log, Base(c.made, e.m.index, e.m.logTerm) + e.m.entries, o.log, h.reign[u]);
      }
    }
  }

  lemma PrefixInReign(c: Cluster, h: History, d: Cluster, g: History, k: nat, t: nat, u: nat)
    requires Reigns(c, h) && Lasting(c, h, g) && (k, t) in c.made && t <= u && u in c.won && u in d.won
    requires d.made == c.made && Clean(d, g, k, t, u + 1)
    ensures c.made[(k, t)] <= h.reign[u]
  {
    hide LogOk;
    if t == u { assert MadeIn(c.made, h.elected[u], h.reign[u], k, u); }
    assert ReignOk(c.made, h.elected[u], h.reign[u], u);
  }

  lemma ResterKeeps(c: Cluster, h: History, e: Event, d: Cluster, g: History, n: Node, o: Node, t: nat, k: nat)
    requires Between(c, h, e, d, g, n, o) && !(e.ProposeAt? && n.role.Leader?)
    requires !(e.Deliver? && e.m.App? && Accepts(n, e.m))
    ensures KeptNow(d, g, Actor(e), t, k)
  {
    hide LogOk, VoteFrom, FirstVote, ReignOk, KeptThen, AnswerOk, Clean, AppOk, Whole, EndsRight, AckOk, Accepts,
         Lasting, LeaderKnows, Extends;
    var v := Actor(e);
    if Held(d, g, v, t, k) && Clean(d, g, k, t, d.nodes[v].term + 1) {
      if o.role.Leader? && t == o.term {
        assert MadeIn(c.made, h.elected[t], h.reign[t], k, t);
      } else {
        CleanBefore(c, h, d, g, k, t, d.nodes[v].term + 1, n.term + 1);
        assert KeptNow(c, h, v, t, k);
      }
    }
  }

  lemma OldBallotKeeps(c: Cluster, h: History, e: Event, d: Cluster, g: History, n: Node, o: Node,
                       v: nat, u: nat, t: nat, k: nat)
    requires Between(c, h, e, d, g, n, o) && (v, u) in h.ballot && (v, u) in c.cast && v in c.nodes && u <= c.nodes[v].term
    ensures KeptThen(d, g, v, u, t, k)
  {
    hide LogOk, VoteFrom, Reigns, KeptNow, AnswerOk, Clean, AppOk, Whole, MadeOk, Accepts, EndsRight, AckOk, Lasting;
    if Held(d, g, v, t, k) && t < u && Clean(d, g, k, t, u) {
      if v != Actor(e) { MadeBefore(c, h, e, d, g, n, o, v, t, k); }
      CleanBefore(c, h, d, g, k, t, u, u);
      assert KeptThen(c, h, v, u, t, k);
    }
  }

  lemma CleanThere(c: Cluster, h: History, d: Cluster, g: History, k: nat, t: nat, u: nat, w: nat)
    requires (k, t) in c.made && d.made == c.made && Lasting(c, h, g) && w <= u && u !in c.won
    requires (forall s :: s in c.won ==> s in d.won) && Clean(d, g, k, t, u)
    ensures Clean(c, h, k, t, w + 1)
  {
  }

  lemma NewBallotKeeps(c: Cluster, h: History, e: Event, d: Cluster, g: History, n: Node, o: Node, t: nat, k: nat)
    requires Between(c, h, e, d, g, n, o) && FirstVote(c, Actor(e), o) && VotesRecorded(c)
    ensures KeptThen(d, g, Actor(e), o.term, t, k)
  {
    hide LogOk, VoteFrom, Reigns, AnswerOk, Clean, AppOk, Whole, MadeOk, EndsRight, AckOk, Extends, Lasting;
    var v, u := Actor(e), o.term;
    if Held(d, g, v, t, k) && t < u && Clean(d, g, k, t, u) {
      CleanThere(c, h, d, g, k, t, u, n.term);
      assert KeptNow(c, h, v, t, k);
    }
  }

  // ---------------------------------------------------------------- what leaders know

  /** How a leader's notes on the others change. */
  ghost predicate MatchStep(n: Node, o: Node, e: Event) {
    o.role.Leader? ==>
      || (ComesToLead(n, o) && o.match_ == map[])
      || (n.role.Leader? && n.term == o.term && o.match_ == n.match_)
      || (n.role.Leader? && n.term == o.term && e.Deliver? && e.m.AppResp? && e.m.term <= n.term
          && o.match_ == n.match_[e.m.from := e.m.index]
          && (e.m.reject ==> e.m.index < MatchNoted(n, e.m.from)))
  }

  lemma NodeStepMatch(n: Node, e: Event, voters: set<nat>)
    ensures MatchStep(n, NodeStep(n, e, voters).node, e)
  {
    hide PutEntries, PutLast, NoWorse, HasQuorum, LastTerm, TermAt, SendApps, Replayed, HandleApp, HandleAppResp,
         Propose, Beat;
    SendsLeave();
    if e.Deliver? && e.m.App? {
      AppVotes(n, e.m);
      AppLeaves(n, e.m);
    } else if e.Deliver? && e.m.AppResp? {
      AnswerNoted(n, e.m, voters, e.point, e.limit);
    } else if e.ProposeAt? {
      ProposeVotes(n, e.data, voters, e.point, e.limit);
      ProposeLeaves(n, e.data, voters, e.point, e.limit);
    } else if e.BeatAt? {
      BeatVotes(n, voters, e.limit);
      BeatLeaves(n, voters, e.limit);
    }
  }

  lemma AnswerNoted(n: Node, m: Msg, voters: set<nat>, point: nat, limit: nat)
    requires m.AppResp?
    ensures var o := HandleAppResp(n, m, voters, point, limit).node;
            o.role.Leader? ==>
              && n.role.Leader? && n.term == o.term
              && (|| o.match_ == n.match_
                  || (m.term <= n.term && o.match_ == n.match_[m.from := m.index]
                      && (m.reject ==> m.index < MatchNoted(n, m.from))))
  {
    hide TermAt, SendApps;
    SendsLeave();
  }

  lemma ProposeLeaves(n: Node, data: seq<byte>, voters: set<nat>, point: nat, limit: nat)
    ensures Propose(n, data, voters, point, limit).node.match_ == n.match_
  {
    hide TermAt, SendApps;
    SendsLeave();
  }

  lemma AppLeaves(n: Node, m: Msg)
    requires m.App?
    ensures HandleApp(n, m).node.match_ == n.match_
    ensures HandleApp(n, m).node.role.Leader? ==> HandleApp(n, m).node == n
  {
    hide PutEntries, PutLast, TermAt;
  }

  lemma AckGrows(c: Cluster, h: History, e: Event, d: Cluster, g: History, n: Node, o: Node, v: nat, t: nat)
    requires Shape(c, h, e, d, g, n, o)
    ensures Ack(h, v, t) <= Ack(g, v, t)
  {
    hide LogStep, VoteFrom, FirstVote;
  }

  lemma LeaderStillKnows(c: Cluster, h: History, e: Event, d: Cluster, g: History, n: Node, o: Node)
    requires Between(c, h, e, d, g, n, o) && MatchStep(n, o, e) && Careful(c, e) && (e.Deliver? ==> e.m in c.net)
    ensures LeaderKnows(g, o)
  {
    hide LogOk, VoteFrom, FirstVote, Reigns, KeptNow, KeptThen, Clean, AppOk, Whole, MadeOk, Accepts, EndsRight,
         Extends, Lasting;
    if o.role.Leader? {
      assert AckOk(c, h, o.id, o.term) && LeaderKnows(h, n);
      if e.Deliver? { assert AnswerOk(h, e.m); }
      forall v | v in o.match_ && v != o.id ensures o.match_[v] <= Ack(g, v, o.term) {
        AckGrows(c, h, e, d, g, n, o, v, o.term);
      }
    }
  }

  lemma OthersStillKnow(c: Cluster, h: History, e: Event, d: Cluster, g: History, n: Node, o: Node, j: nat)
    requires Shape(c, h, e, d, g, n, o) && j in c.nodes && j != Actor(e) && c.nodes[j].id == j && LeaderKnows(h, c.nodes[j])
    ensures LeaderKnows(g, d.nodes[j])
  {
    hide LogStep, VoteFrom, FirstVote, HoldsAll, ComesToLead;
    var m := c.nodes[j];
    forall v | v in m.match_ && v != m.id && m.role.Leader? ensures m.match_[v] <= Ack(g, v, m.term) {
      AckGrows(c, h, e, d, g, n, o, v, m.term);
    }
  }

  lemma KeepsAck(c: Cluster, h: History, e: Event, d: Cluster, g: History, n: Node, o: Node, v: nat, t: nat)
    requires Between(c, h, e, d, g, n, o) && SameTerms(d, g)
    ensures AckOk(d, g, v, t)
  {
    hide LogOk, VoteFrom, FirstVote, KeptNow, KeptThen, Clean, AppOk, Whole, MadeOk, Accepts, EndsRight, Extends,
         PutEntries, Reigns, LeaderKnows, AnswerOk, InTerm, LogStep;
    assert AckOk(c, h, v, t);
    if e.Deliver? && e.m.App? && Accepts(n, e.m) {
      AppendStep(c, h, e, d, g, n, o);
    }
  }

  lemma ActorKeeps(c: Cluster, h: History, e: Event, d: Cluster, g: History, n: Node, o: Node, v: nat, t: nat, k: nat)
    requires Between(c, h, e, d, g, n, o)
    ensures KeptNow(d, g, v, t, k)
  {
    hide Between, KeptNow, Accepts;
    if v != Actor(e) {
      OtherKeeps(c, h, e, d, g, n, o, v, t, k);
    } else if e.ProposeAt? && n.role.Leader? {
      ProposerKeeps(c, h, e, d, g, n, o, t, k);
    } else if e.Deliver? && e.m.App? && Accepts(n, e.m) {
      FollowerKeeps(c, h, e, d, g, n, o, t, k);
    } else {
      ResterKeeps(c, h, e, d, g, n, o, t, k);
    }
  }

  lemma BallotKeeps(c: Cluster, h: History, e: Event, d: Cluster, g: History, n: Node, o: Node, v: nat, u: nat, t: nat, k: nat)
    requires Between(c, h, e, d, g, n, o) && Ballots(c, h) && VotesRecorded(c)
    ensures KeptThen(d, g, v, u, t, k)
  {
    hide Between, Held, Clean, BallotOk, AskOk, Seated, LogOk;
    if (v, u) in h.ballot {
      OldBallotKeeps(c, h, e, d, g, n, o, v, u, t, k);
    } else if (v, u) in g.ballot {
      assert v == Actor(e) && u == o.term && FirstVote(c, v, o) by { NewBallot(c, h, e, d, g, n, o, v, u); }
      NewBallotKeeps(c, h, e, d, g, n, o, t, k);
    }
  }

  lemma NewBallot(c: Cluster, h: History, e: Event, d: Cluster, g: History, n: Node, o: Node, v: nat, u: nat)
    requires Between(c, h, e, d, g, n, o) && (v, u) in g.ballot && (v, u) !in h.ballot
    ensures v == Actor(e) && u == o.term && FirstVote(c, v, o)
  {
    hide Reigns, Acks, LogStep, VoteFrom, HoldsAll, Lasting, InTerm, MadeOk, LogOk, Extends, AppOk, Whole, EndsRight,
         Accepts;
  }

  lemma StepBetween(c: Cluster, h: History, e: Event)
    requires Elected(c) && Matching(c) && Enabled(c, e) && Careful(c, e) && Orderly(c, h) && Acks(c, h)
    ensures Between(c, h, e, Step(c, e), Recorded(c, h, e), c.nodes[Actor(e)], Step(c, e).nodes[Actor(e)])
  {
    var n := c.nodes[Actor(e)];
    StepSettles(c, h, e);
    StepKeepsOrderly(c, h, e);
    if e.Deliver? && e.m.App? && Accepts(n, e.m) {
      AppDelivered(n, e, c.voters);
      assert FromLeader(c, e.m) && AppOk(c.made, e.m);
    }
    hide NodeStep, Recorded, Reigns, Acks, Shape, Lasting, InTerm, MadeOk, LogOk, Extends, AppOk, Whole, EndsRight,
         Accepts, HandleApp, PointRight, Elected;
  }

  lemma KeepsAnswer(c: Cluster, h: History, e: Event, m: Msg)
    requires NodesNamed(c) && Enabled(c, e) && Steady(c, e) && Sound(c.nodes[Actor(e)]) && m in Step(c, e).net && Acks(c, h)
    ensures AnswerOk(Recorded(c, h, e), m)
  {
    hide NodeStep, KeptNow, KeptThen, AckOk, LeaderKnows, PointRight, Accepts, Sound, Steady;
    var d, g := Step(c, e), Recorded(c, h, e);
    StepShape(c, h, e);
    if m in c.net {
      assert AnswerOk(h, m);
      AckGrows(c, h, e, d, g, c.nodes[Actor(e)], d.nodes[Actor(e)], m.from, m.term);
    } else {
      NodeStepAsks(c.nodes[Actor(e)], e, c.voters, m);
    }
  }

  lemma CarefulSteady(c: Cluster, e: Event)
    requires Actor(e) in c.nodes && Careful(c, e)
    ensures Steady(c, e)
  {
    hide Steady, Accepts, EndsRight;
  }

  lemma OrderlyTerms(c: Cluster, h: History)
    requires Orderly(c, h)
    ensures SameTerms(c, h)
  {
    hide SameTerms, ReignOk, MadeIn, AppsTold, InTerm;
  }

  lemma StepKeepsAcks(c: Cluster, h: History, e: Event)
    requires Elected(c) && Matching(c) && Enabled(c, e) && Careful(c, e) && Orderly(c, h) && Ballots(c, h) && Acks(c, h)
    ensures Acks(Step(c, e), Recorded(c, h, e))
  {
    hide NodeStep, Recorded, Orderly, Between, Careful, Ballots, MatchStep, PointRight, AckOk, LeaderKnows, AnswerOk,
         KeptNow, KeptThen, SameTerms, Sound, Steady, Matching;
    var i, d, g := Actor(e), Step(c, e), Recorded(c, h, e);
    var n, o := c.nodes[i], d.nodes[i];
    StepBetween(c, h, e);
    CarefulSteady(c, e);
    StepKeepsOrderly(c, h, e);
    OrderlyTerms(d, g);
    NodeStepMatch(n, e, c.voters);
    ActorSound(c, e);
    forall v, t ensures AckOk(d, g, v, t) { KeepsAck(c, h, e, d, g, n, o, v, t); }
    forall j | j in d.nodes ensures LeaderKnows(g, d.nodes[j]) {
      if j == i {
        LeaderStillKnows(c, h, e, d, g, n, o);
      } else {
        StepShape(c, h, e);
        OthersStillKnow(c, h, e, d, g, n, o, j);
      }
    }
    forall m | m in d.net ensures AnswerOk(g, m) { KeepsAnswer(c, h, e, m); }
    forall v, t, k ensures KeptNow(d, g, v, t, k) { ActorKeeps(c, h, e, d, g, n, o, v, t, k); }
    forall v, u, t, k ensures KeptThen(d, g, v, u, t, k) { BallotKeeps(c, h, e, d, g, n, o, v, u, t, k); }
  }
}
