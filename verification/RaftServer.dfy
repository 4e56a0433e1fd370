/** The node as the code keeps it: fields updated in place, the votes and peers as lists, of which
    only the first sixteen count. */
module RaftServer {
  import opened Bytes
  import opened Raft

  /** How many of `s` are in `t`. */
  function CountIn(s: seq<nat>, t: seq<nat>): nat {
    if s == [] then 0 else CountIn(s[..|s| - 1], t) + (if s[|s| - 1] in t then 1 else 0)
  }

  lemma SetOf(s: seq<nat>, x: nat)
    ensures AsSet(s + [x]) == AsSet(s) + {x} && (x in AsSet(s) <==> x in s)
  {
  }

  lemma LastApart(s: seq<nat>)
    requires Distinct(s) && s != []
    ensures Distinct(s[..|s| - 1]) && s[|s| - 1] !in s[..|s| - 1] && s == s[..|s| - 1] + [s[|s| - 1]]
  {
  }

  lemma {:induction false} CountIsSize(s: seq<nat>, t: seq<nat>)
    requires Distinct(s)
    ensures CountIn(s, t) == |AsSet(s) * AsSet(t)| && |AsSet(s)| == |s|
  {
    if s == [] {
      assert AsSet(s) == {} && AsSet(s) * AsSet(t) == {};
      return;
    }
    hide Distinct;
    var r, x := s[..|s| - 1], s[|s| - 1];
    LastApart(s);
    CountIsSize(r, t);
    SetOf(r, x);
    assert x in AsSet(t) <==> x in t;
    assert CountIn(s, t) == CountIn(r, t) + (if x in t then 1 else 0);
    hide AsSet, CountIn;
    MeetOneMore(AsSet(r), AsSet(t), x);
  }

  lemma MeetOneMore(a: set<nat>, b: set<nat>, x: nat)
    requires x !in a
    ensures |(a + {x}) * b| == |a * b| + (if x in b then 1 else 0) && |a + {x}| == |a| + 1
  {
    assert (a + {x}) * b == a * b + (if x in b then {x} else {});
  }

  lemma ReplayNone()
    ensures forall disk: seq<Stored> :: disk == [] ==> Replayed(disk) == Image([], 0)
  {
  }

  lemma ReplayOne(disk: seq<Stored>, i: nat)
    requires i < |disk|
    ensures Replayed(disk[..i + 1]) == Placed(Replayed(disk[..i]), disk[i])
  {
    assert disk[..i + 1][..i] == disk[..i];
  }

  /** match_of_ for each peer. */
  function Matches(n: Node, peers: seq<nat>): seq<nat> {
    if peers == [] then [] else Matches(n, peers[..|peers| - 1]) + [MatchOf(n, peers[|peers| - 1])]
  }

  lemma {:induction false} ReachedSize(n: Node, peers: seq<nat>, x: nat)
    requires Distinct(peers)
    ensures AtLeast(Matches(n, peers), x) == |Reached(n, AsSet(peers), x)| && |Matches(n, peers)| == |peers|
  {
    if peers == [] {
      assert Reached(n, AsSet(peers), x) == {};
      return;
    }
    hide Distinct;
    var r, p := peers[..|peers| - 1], peers[|peers| - 1];
    LastApart(peers);
    ReachedSize(n, r, x);
    AtLeastConcat(Matches(n, r), [MatchOf(n, p)], x);
    SetOf(r, p);
    hide AsSet, AtLeast, MatchOf;
    ReachedOneMore(n, AsSet(r), p, x);
    assert AtLeast([MatchOf(n, p)], x) == if MatchOf(n, p) >= x then 1 else 0 by { CountOne(MatchOf(n, p), x); }
  }

  lemma CountOne(v: nat, x: nat)
    ensures AtLeast([v], x) == if v >= x then 1 else 0
  {
  }

  lemma ReachedOneMore(n: Node, a: set<nat>, p: nat, x: nat)
    requires p !in a
    ensures |Reached(n, a + {p}, x)| == |Reached(n, a, x)| + (if MatchOf(n, p) >= x then 1 else 0)
  {
    assert Reached(n, a + {p}, x) == Reached(n, a, x) + (if MatchOf(n, p) >= x then {p} else {});
  }

  lemma CountedDistinct(s: seq<nat>)
    requires Distinct(s)
    ensures Distinct(Counted(s))
  {
  }

  // ------------------------------------------------------------------------- sending

  lemma SendIs(n: Node, p: nat, limit: nat)
    ensures SendApps(n, {p}, limit)
         == if CanSend(n, p) then Out(n.(flight := n.flight + {p}), {AppTo(n, p, limit)}) else Out(n, {})
  {
    hide CanSend, AppTo;
    var o := SendApps(n, {p}, limit);
    assert o.node.flight == if CanSend(n, p) then n.flight + {p} else n.flight;
    assert o.sent == if CanSend(n, p) then {AppTo(n, p, limit)} else {};
  }

  lemma AppIs(n: Node, p: nat, limit: nat)
    requires CanSend(n, p)
    ensures var prev, count := SendFrom(n, p) - 1, Batch(n.log, SendFrom(n, p), limit);
            AppTo(n, p, limit)
            == App(n.id, p, n.term, prev, if prev == 0 then 0 else n.log[prev - 1].term, n.log[prev..prev + count], n.commit)
  {
    hide Batch;
  }

  /** Sending to one more peer. */
  lemma SendOneMore(n: Node, a: set<nat>, p: nat, limit: nat)
    requires p !in a
    ensures var x, y := SendApps(n, a, limit), SendApps(SendApps(n, a, limit).node, {p}, limit);
            SendApps(n, a + {p}, limit) == Out(y.node, x.sent + y.sent)
  {
    var x := SendApps(n, a, limit).node;
    SameTo(n, x, p, limit);
    SendIs(x, p, limit);
    hide CanSend, AppTo;
    var z := SendApps(n, a + {p}, limit);
    assert z.node.flight == if CanSend(n, p) then x.flight + {p} else x.flight;
    assert z.sent == SendApps(n, a, limit).sent + if CanSend(n, p) then {AppTo(n, p, limit)} else {};
  }

  lemma SameTo(n: Node, x: Node, p: nat, limit: nat)
    requires x == n.(flight := x.flight) && (p in n.flight <==> p in x.flight)
    ensures (CanSend(x, p) <==> CanSend(n, p)) && (CanSend(n, p) ==> AppTo(x, p, limit) == AppTo(n, p, limit))
  {
    hide Batch, TermAt;
  }

  lemma SendNone(n: Node, limit: nat)
    ensures SendApps(n, {}, limit) == Out(n, {})
  {
  }

  /** The heartbeats and appends to these peers, whatever was on its way to them. */
  function Beaten(n: Node, to: set<nat>, limit: nat): Out {
    var o := SendApps(n.(flight := n.flight - (to - {n.id})), to, limit);
    Out(o.node, o.sent + Heartbeats(n, to))
  }

  lemma BeatAll(n: Node, voters: set<nat>, limit: nat)
    requires n.role.Leader?
    ensures Beaten(n, voters, limit) == Beat(n, voters, limit)
  {
  }

  lemma BeatNone(n: Node, limit: nat)
    ensures Beaten(n, {}, limit) == Out(n, {})
  {
    SendNone(n, limit);
    assert n.flight - ({} - {n.id}) == n.flight;
  }

  lemma BeatOneMore(n: Node, a: set<nat>, p: nat, limit: nat)
    requires p !in a
    ensures var x := Beaten(n, a, limit);
            var y := SendApps(x.node.(flight := x.node.flight - {p}), {p}, limit);
            && x.node == n.(flight := x.node.flight)
            && Beaten(n, a + {p}, limit)
            == if p == n.id then x else Out(y.node, x.sent + {Heartbeat(n.id, p, n.term, n.commit)} + y.sent)
  {
    var b, c := n.(flight := n.flight - (a - {n.id})), n.(flight := n.flight - (a + {p} - {n.id}));
    BeatsOneMore(n, a, p);
    assert Beaten(n, a + {p}, limit).sent == SendApps(c, a + {p}, limit).sent + Heartbeats(n, a + {p});
    SendOneMore(c, a, p, limit);
    SendsAlike(b, c, a, limit);
    if p == n.id {
      SendsSelf(SendApps(c, a, limit).node, limit);
      assert b == c;
    } else {
      var x := SendApps(b, a, limit).node;
      assert x.(flight := x.flight - {p}) == SendApps(c, a, limit).node;
    }
  }

  lemma BeatsOneMore(n: Node, a: set<nat>, p: nat)
    ensures Heartbeats(n, a + {p}) == Heartbeats(n, a) + if p == n.id then {} else {Heartbeat(n.id, p, n.term, n.commit)}
  {
  }

  lemma SendsSelf(n: Node, limit: nat)
    ensures SendApps(n, {n.id}, limit) == Out(n, {})
  {
    assert !CanSend(n, n.id);
  }

  /** What is on its way to others is neither here nor there. */
  lemma SendsAlike(b: Node, c: Node, a: set<nat>, limit: nat)
    requires c == b.(flight := c.flight) && forall q :: q in a ==> (q in b.flight <==> q in c.flight)
    ensures SendApps(b, a, limit).sent == SendApps(c, a, limit).sent
    ensures SendApps(b, a, limit).node.flight - b.flight == SendApps(c, a, limit).node.flight - c.flight
  {
    forall q | q in a
      ensures (CanSend(b, q) <==> CanSend(c, q)) && (CanSend(b, q) ==> AppTo(b, q, limit) == AppTo(c, q, limit)) {
      SameTo(b, c, q, limit);
    }
    hide CanSend, AppTo;
  }

  lemma CountedStep(peers: seq<nat>, i: nat)
    requires Distinct(peers) && i < |Counted(peers)|
    ensures var to := Counted(peers); to[i] !in AsSet(to[..i]) && AsSet(to[..i + 1]) == AsSet(to[..i]) + {to[i]}
  {
    var to := Counted(peers);
    assert to[..i + 1] == to[..i] + [to[i]];
    SetOf(to[..i], to[i]);
  }

  lemma EmptySet()
    ensures AsSet([]) == {}
  {
  }

  /** The vote requests of a candidate to these peers. */
  function Requests(n: Node, to: set<nat>): set<Msg> {
    set p | p in to && p != n.id :: Vote(n.id, p, n.term, |n.log|, n.lastTerm)
  }

  /** The requests for a pre-vote in the term after. */
  function PreRequests(n: Node, to: set<nat>): set<Msg> {
    var t := n.term + 1;
    set p | p in to && p != n.id :: PreVote(n.id, p, t, |n.log|, n.lastTerm)
  }

  lemma AllCounted(n: Node, peers: seq<nat>)
    ensures Counted(Matches(n, Counted(peers))) == Matches(n, Counted(peers))
    ensures peers != [] ==> Matches(n, Counted(peers)) != []
  {
    MatchesSize(n, Counted(peers));
  }

  lemma {:induction false} MatchesSize(n: Node, peers: seq<nat>)
    ensures |Matches(n, peers)| == |peers|
  {
    if peers != [] { MatchesSize(n, peers[..|peers| - 1]); }
  }

  /** The value the sort finds is the commit point. */
  lemma MajorityIsPoint(n: Node, peers: seq<nat>, r: nat)
    requires Distinct(peers) && IsMajority(Matches(n, peers), r)
    ensures IsCommitPoint(n, AsSet(peers), r)
  {
    CountIsSize(peers, []);
    ReachedSize(n, peers, r);
    forall x | x > r ensures |Reached(n, AsSet(peers), x)| < QuorumSize(|AsSet(peers)|) {
      ReachedSize(n, peers, x);
    }
  }

  class Server {
    const id: nat
    const peers: seq<nat>
    const maxSize: nat
    var term: nat
    var vote: nat
    var role: Role
    var votes: seq<nat>
    var log: seq<Entry>
    var lastTerm: nat
    var commit: nat
    var match_: map<nat, nat>
    var start: nat
    var next: map<nat, nat>
    var flight: set<nat>
    var disk: seq<Stored>
    var sent: seq<Msg>

    ghost predicate Valid()
      reads this
    {
      Distinct(peers)
    }

    /** The peers that are counted and sent appends. */
    ghost function Voters(): set<nat>
      reads this
    {
      AsSet(Counted(peers))
    }

    ghost function View(): Node
      reads this
    {
      Node(id, term, vote, role, AsSet(votes), log, commit, match_, lastTerm, disk, start, next, flight)
    }

    /** Exactly these messages were queued. */
    twostate predicate Adds(ms: set<Msg>)
      reads this
    {
      forall m :: m in sent <==> (m in old(sent) || m in ms)
    }

    /** `o` is what became of this node, and what it queued. */
    twostate predicate Became(o: Out)
      reads this
    {
      View() == o.node && Adds(o.sent)
    }

    constructor (id: nat, peers: seq<nat>, maxSize: nat)
      requires Distinct(peers)
      ensures Valid() && this.id == id && this.peers == peers && this.maxSize == maxSize
      ensures View() == NewNode(id) && sent == []
    {
      this.id, this.peers, this.maxSize := id, peers, maxSize;
      term, vote, role, votes, log, lastTerm, commit, sent := 0, 0, Follower, [], [], 0, 0, [];
      match_, start, next, flight, disk := map[], 1, map[], {}, [];
    }

    /** cetcd_raft_restore_entry. */
    method RestoreEntry(r: Stored)
      requires Valid()
      modifies this`log, this`lastTerm
      ensures Valid() && Image(log, lastTerm) == Placed(old(Image(log, lastTerm)), r)
    {
      if r.index == 0 { return; }
      if r.index <= |log| {
        log := log[r.index - 1 := r.entry];
      } else {
        while |log| < r.index - 1
          invariant old(|log|) <= |log| <= r.index - 1
          invariant log == old(log) + seq(|log| - old(|log|), _ => Entry(0, []))
        {
          log := log + [Entry(0, [])];
        }
        log := log + [r.entry];
        lastTerm := r.entry.term;
      }
    }

    method RestoreAll(disk: seq<Stored>)
      requires Valid() && log == [] && lastTerm == 0
      modifies this`log, this`lastTerm
      ensures Valid() && Image(log, lastTerm) == Replayed(disk)
    {
      hide Replayed, Placed, Distinct;
      ReplayNone();
      var i := 0;
      while i < |disk|
        invariant i <= |disk| && Valid() && Image(log, lastTerm) == Replayed(disk[..i])
      {
        ReplayOne(disk, i);
        RestoreEntry(disk[i]);
        i := i + 1;
      }
      assert disk[..|disk|] == disk;
    }

    /** replay_wal_: a node that comes back up from what was stored of `was`. */
    constructor Replay(was: Node, peers: seq<nat>, maxSize: nat)
      requires Distinct(peers)
      ensures Valid() && this.peers == peers && View() == Restarted(was) && sent == []
    {
      this.id, this.peers, this.maxSize := was.id, peers, maxSize;
      term, vote, role, votes, log, lastTerm, commit, sent := 0, 0, Follower, [], [], 0, 0, [];
      match_, start, next, flight, disk := map[], 1, map[], {}, was.disk;
      new;
      hide Replayed, Distinct;
      RestoreAll(disk);
      term, vote, commit := was.term, was.vote, was.commit;
    }

    /** vote_quorum_ok_ without outgoing voters. */
    method VoteQuorumOk() returns (ok: bool)
      requires Valid()
      ensures ok == HasQuorum(Voters(), AsSet(votes))
    {
      var incoming := Counted(peers);
      CountedDistinct(peers);
      var n := 0;
      for i := 0 to |incoming|
        invariant n == CountIn(incoming[..i], votes)
      {
        assert incoming[..i + 1][..i] == incoming[..i];
        if incoming[i] in votes { n := n + 1; }
      }
      assert incoming[..|incoming|] == incoming;
      CountIsSize(incoming, votes);
      ok := |incoming| > 0 && n >= |incoming| / 2 + 1;
    }

    method BecomeFollower(t: nat)
      requires Valid()
      modifies this
      ensures Valid() && sent == old(sent) && View() == Raft.BecomeFollower(old(View()), t)
    {
      role := Follower;
      if t > term { term, vote := t, 0; }
    }

    method BecomeLeader()
      requires Valid()
      modifies this
      ensures Valid() && sent == old(sent) && View() == Raft.BecomeLeader(old(View()))
    {
      role, match_, start, next, flight := Leader, map[], |log| + 1, map[], {};
    }

    method SendVotes()
      requires Valid()
      modifies this`sent
      ensures Adds(Requests(View(), AsSet(peers)))
    {
      for i := 0 to |peers|
        invariant Adds(set j | 0 <= j < i && peers[j] != id :: Vote(id, peers[j], term, |log|, lastTerm))
      {
        if peers[i] != id { sent := sent + [Vote(id, peers[i], term, |log|, lastTerm)]; }
      }
    }

    method Stand()
      requires Valid()
      modifies this`role, this`term, this`vote, this`votes
      ensures Valid() && View() == old(View()).(role := Candidate, term := old(term) + 1, vote := id, votes := {id})
    {
      role, term, vote, votes := Candidate, term + 1, id, [id];
    }

    /** Peers past the sixteenth are asked for a vote that is not counted. */
    method BecomeCandidate()
      requires Valid()
      modifies this
      ensures Valid()
      ensures var o := Raft.BecomeCandidate(old(View()), Voters());
              Became(Out(o.node, if o.node.role.Leader? then {} else Requests(o.node, AsSet(peers))))
    {
      hide HasQuorum, AsSet, Requests, Distinct, Counted;
      Stand();
      var ok := VoteQuorumOk();
      if ok {
        BecomeLeader();
      } else {
        SendVotes();
      }
    }

    method HandleVote(m: Msg)
      requires Valid() && m.Vote?
      modifies this
      ensures Valid() && Became(Raft.HandleVote(old(View()), m))
    {
      if m.term < term {
        sent := sent + [VoteResp(id, m.from, term, true)];
        return;
      }
      if m.term > term { BecomeFollower(m.term); }
      if (vote == 0 || vote == m.from)
        && (m.logTerm > lastTerm || (m.logTerm == lastTerm && m.index >= |log|)) {
        vote := m.from;
        sent := sent + [VoteResp(id, m.from, term, false)];
      } else {
        sent := sent + [VoteResp(id, m.from, term, true)];
      }
    }

    method Broadcast()
      requires Valid()
      modifies this`sent
      ensures Adds(Heartbeats(View(), AsSet(peers)))
    {
      for i := 0 to |peers|
        invariant Adds(set j | 0 <= j < i && peers[j] != id :: Heartbeat(id, peers[j], term, commit))
      {
        if peers[i] != id { sent := sent + [Heartbeat(id, peers[i], term, commit)]; }
      }
    }

    method CountVote(from: nat)
      requires Valid()
      modifies this`votes
      ensures Valid() && AsSet(votes) == AsSet(old(votes)) + {from}
    {
      if from !in votes { votes := votes + [from]; }
    }

    /** A candidate with a quorum of votes leads and says so. */
    method LeadIfElected()
      requires Valid()
      modifies this
      ensures Valid()
      ensures HasQuorum(Voters(), AsSet(old(votes))) ==>
                var l := Raft.BecomeLeader(old(View())); Became(Out(l, Heartbeats(l, AsSet(peers))))
      ensures !HasQuorum(Voters(), AsSet(old(votes))) ==> Became(Out(old(View()), {}))
    {
      hide HasQuorum, AsSet, Heartbeats;
      var ok := VoteQuorumOk();
      if ok {
        BecomeLeader();
        Broadcast();
      }
    }

    /** Peers past the sixteenth hear of a new leader too. */
    method HandleVoteResp(m: Msg)
      requires Valid() && m.VoteResp?
      modifies this
      ensures Valid()
      ensures var o := Raft.HandleVoteResp(old(View()), m, Voters());
              Became(Out(o.node, if o.node.role.Leader? && !old(role.Leader?) then Heartbeats(o.node, AsSet(peers)) else {}))
    {
      hide HasQuorum, AsSet, Heartbeats;
      if m.term > term {
        BecomeFollower(m.term);
        return;
      }
      if role != Candidate || m.reject { return; }
      CountVote(m.from);
      LeadIfElected();
    }

    method SendPreVotes()
      requires Valid()
      modifies this`sent
      ensures Adds(PreRequests(View(), AsSet(peers)))
    {
      var t := term + 1;
      for i := 0 to |peers|
        invariant Adds(set j | 0 <= j < i && peers[j] != id :: PreVote(id, peers[j], t, |log|, lastTerm))
      {
        if peers[i] != id { sent := sent + [PreVote(id, peers[i], t, |log|, lastTerm)]; }
      }
    }

    method PreStand()
      requires Valid()
      modifies this`role, this`votes
      ensures Valid() && View() == old(View()).(role := PreCandidate, votes := {id})
    {
      role, votes := PreCandidate, [id];
    }

    method BecomePreCandidate()
      requires Valid()
      modifies this
      ensures Valid()
      ensures var o := Raft.BecomePreCandidate(old(View()), Voters());
              Became(Out(o.node, if o.node.role.Leader? then {} else PreRequests(o.node, AsSet(peers))))
    {
      hide HasQuorum, AsSet, Requests, PreRequests, Distinct, Counted;
      PreStand();
      var ok := VoteQuorumOk();
      if ok {
        BecomeCandidate();
      } else {
        SendPreVotes();
      }
    }

    /** CETCD_MSG_HUP. */
    method Hup(preVote: bool)
      requires Valid()
      modifies this
      ensures Valid()
      ensures var o := Raft.Hup(old(View()), Voters(), preVote);
              Became(Out(o.node, if o.node.role.Leader? then {}
                                 else if preVote then PreRequests(o.node, AsSet(peers)) else Requests(o.node, AsSet(peers))))
    {
      hide Raft.BecomeCandidate, Raft.BecomePreCandidate, AsSet, Requests, PreRequests, Distinct, Counted;
      if role != Leader {
        if preVote { BecomePreCandidate(); } else { BecomeCandidate(); }
      }
    }

    /** `leader` is the leader that is known, 0 for none; `elapsed` and `timeout` count ticks. */
    method HandlePreVote(m: Msg, checkQuorum: bool, leader: nat, elapsed: nat, timeout: nat)
      requires Valid() && m.PreVote?
      modifies this`sent
      ensures Valid() && Became(Raft.HandlePreVote(old(View()), m, checkQuorum && leader != 0 && elapsed < timeout))
    {
      var reject := false;
      if m.term < term {
        reject := true;
      } else if checkQuorum && leader != 0 && elapsed < timeout {
        reject := true;
      } else if !(m.logTerm > lastTerm || (m.logTerm == lastTerm && m.index >= |log|)) {
        reject := true;
      }
      sent := sent + [PreVoteResp(id, m.from, if reject then term else m.term, reject)];
    }

    /** With enough grants the node stands, or leads at once and says so. */
    method HandlePreVoteResp(m: Msg)
      requires Valid() && m.PreVoteResp?
      modifies this
      ensures Valid()
      ensures var o := Raft.HandlePreVoteResp(old(View()), m, Voters());
              Became(Out(o.node, if o.node.role == old(role) || o.node.role.Follower? then {}
                                 else if o.node.role.Leader? then Heartbeats(o.node, AsSet(peers))
                                 else Requests(o.node, AsSet(peers))))
    {
      hide HasQuorum, AsSet, Heartbeats, Requests;
      if m.reject {
        if m.term > term { BecomeFollower(m.term); }
        return;
      }
      if role != PreCandidate { return; }
      CountVote(m.from);
      var ok := VoteQuorumOk();
      if ok {
        BecomeCandidate();
        if role == Leader { Broadcast(); }
      }
    }

    /** log_truncate_after_, log_append_ and queue_entry_ for one entry of an append. */
    method Store(index: nat, e: Entry)
      requires Valid() && 0 < index <= |log| + 1
      modifies this`log, this`lastTerm, this`disk
      ensures Valid() && log == PutEntry(old(log), index, e) && disk == old(disk) + [Stored(index, e)]
      ensures lastTerm == if index <= old(|log|) && old(log)[index - 1].term == e.term then old(lastTerm) else e.term
    {
      if index <= |log| && log[index - 1].term != e.term {
        log := log[..index - 1];
        lastTerm := if index == 1 then 0 else log[index - 2].term;
      }
      if index <= |log| {
        log := log[index - 1 := e];
      } else {
        log := log + [e];
        lastTerm := e.term;
      }
      disk := disk + [Stored(index, e)];
    }

    method StoreAll(index: nat, entries: seq<Entry>)
      requires Valid() && index <= |log|
      modifies this`log, this`lastTerm, this`disk
      ensures Valid() && log == PutEntries(old(log), index + 1, entries)
      ensures lastTerm == PutLast(old(log), old(lastTerm), index + 1, entries)
      ensures disk == old(disk) + Records(index + 1, entries)
    {
      hide PutEntries, PutLast, Records, PutEntry, Distinct;
      var i := 0;
      assert entries[0..] == entries;
      while i < |entries|
        invariant i <= |entries| && index + i <= |log| && Valid()
        invariant PutEntries(log, index + i + 1, entries[i..]) == PutEntries(old(log), index + 1, entries)
        invariant PutLast(log, lastTerm, index + i + 1, entries[i..]) == PutLast(old(log), old(lastTerm), index + 1, entries)
        invariant disk + Records(index + i + 1, entries[i..]) == old(disk) + Records(index + 1, entries)
      {
        PutStep(log, lastTerm, index + i + 1, entries[i..]);
        assert entries[i..][1..] == entries[i + 1..];
        ghost var rest := Records(index + i + 2, entries[i + 1..]);
        assert disk + ([Stored(index + i + 1, entries[i])] + rest) == disk + [Stored(index + i + 1, entries[i])] + rest;
        Store(index + i + 1, entries[i]);
        i := i + 1;
      }
      assert entries[i..] == [];
      PutNone(log, lastTerm, index + i + 1);
    }

    method AdvanceTo(c: nat)
      requires Valid()
      modifies this`commit
      ensures Valid() && View() == Advanced(old(View()), c)
    {
      if c > commit {
        var to := if c > |log| then |log| else c;
        if to > commit { commit := to; }
      }
    }

    method HandleApp(m: Msg)
      requires Valid() && m.App?
      modifies this
      ensures Valid() && Became(Raft.HandleApp(old(View()), m))
    {
      hide PutEntries, PutLast, Records, AsSet, Distinct, Advanced;
      if m.term < term {
        sent := sent + [AppResp(id, m.from, term, 0, true)];
        return;
      }
      if m.term > term { BecomeFollower(m.term); }
      if role != Follower { BecomeFollower(m.term); }
      if m.index > 0 {
        if m.index > |log| {
          sent := sent + [AppResp(id, m.from, term, |log|, true)];
          return;
        }
        if log[m.index - 1].term != m.logTerm {
          sent := sent + [AppResp(id, m.from, term, m.index, true)];
          return;
        }
      }
      StoreAll(m.index, m.entries);
      AdvanceTo(m.commit);
      sent := sent + [AppResp(id, m.from, term, |log|, false)];
    }

    method HandleHeartbeat(m: Msg)
      requires Valid() && m.Heartbeat?
      modifies this
      ensures Valid() && Became(Raft.HandleHeartbeat(old(View()), m))
    {
      if m.term < term { return; }
      if m.term > term { BecomeFollower(m.term); }
      if role != Follower { BecomeFollower(m.term); }
      AdvanceTo(m.commit);
    }

    method MatchList() returns (s: seq<nat>)
      requires Valid()
      ensures s == Matches(View(), Counted(peers))
    {
      var incoming := Counted(peers);
      s := [];
      for i := 0 to |incoming|
        invariant s == Matches(View(), incoming[..i])
      {
        var p := incoming[i];
        assert incoming[..i + 1][..i] == incoming[..i];
        s := s + [if p == id then |log| else if p in match_ then match_[p] else 0];
      }
      assert incoming[..|incoming|] == incoming;
    }

    /** maybe_advance_commit_: moves to the commit point. */
    method MaybeAdvance() returns (ghost point: nat)
      requires Valid()
      modifies this`commit
      ensures Valid() && View() == MaybeCommit(old(View()), point)
      ensures role.Leader? && peers != [] ==> IsCommitPoint(old(View()), Voters(), point)
    {
      point := 0;
      if role != Leader || |peers| == 0 { return; }
      var s := MatchList();
      var r := MajorityMatch(s);
      CountedDistinct(peers);
      AllCounted(View(), peers);
      MajorityIsPoint(View(), Counted(peers), r);
      point := r;
      var t := if r == 0 || r > |log| then 0 else log[r - 1].term;
      if r > commit && t == term { commit := r; }
    }

    /** How many entries from `from` on go into one append. */
    method CountBatch(from: nat) returns (n: nat)
      requires Valid() && 0 < from <= |log|
      ensures n == Batch(log, from, maxSize)
    {
      var max := if maxSize == 0 then 1024 * 1024 else maxSize;
      n := 0;
      var bytes: nat := 0;
      while n < 256 && from + n <= |log|
        invariant from - 1 + n <= |log|
        invariant BatchFrom(log, from - 1 + n, n, bytes, maxSize) == Batch(log, from, maxSize)
      {
        var add := |log[from - 1 + n].data| + 16;
        if n > 0 && bytes + add > max { break; }
        bytes, n := bytes + add, n + 1;
      }
    }

    /** The append that starts at `from`. */
    method AppFrom(p: nat, from: nat) returns (app: Msg)
      requires Valid() && CanSend(View(), p) && from == SendFrom(View(), p)
      ensures app == AppTo(View(), p, maxSize)
    {
      hide Batch, AsSet, Distinct, AppTo;
      var n := CountBatch(from);
      var prev := from - 1;
      AppIs(View(), p, maxSize);
      app := App(id, p, term, prev, if prev == 0 then 0 else log[prev - 1].term, log[prev..prev + n], commit);
    }

    /** maybe_send_app_ where nothing is compacted. */
    method MaybeSend(p: nat)
      requires Valid()
      modifies this`sent, this`flight
      ensures Valid() && Became(SendApps(old(View()), {p}, maxSize))
    {
      hide AsSet, SendApps, AppTo, Distinct;
      SendIs(View(), p, maxSize);
      if p == id || p in flight { return; }
      var from := if p in next then next[p] else start;
      if from == 0 { from := 1; }
      if from > |log| { return; }
      var app := AppFrom(p, from);
      sent := sent + [app];
      flight := flight + {p};
    }

    method SendAll()
      requires Valid()
      modifies this`sent, this`flight
      ensures Valid() && Became(SendApps(old(View()), Voters(), maxSize))
    {
      hide SendApps, AsSet, Distinct;
      var to := Counted(peers);
      SendNone(View(), maxSize);
      EmptySet();
      for i := 0 to |to|
        invariant Became(SendApps(old(View()), AsSet(to[..i]), maxSize))
      {
        CountedStep(peers, i);
        SendOneMore(old(View()), AsSet(to[..i]), to[i], maxSize);
        MaybeSend(to[i]);
      }
      assert to[..|to|] == to;
    }

    /** A peer's answer. */
    method HandleAppResp(m: Msg) returns (ghost point: nat)
      requires Valid() && m.AppResp?
      modifies this
      ensures Valid() && Became(Raft.HandleAppResp(old(View()), m, Voters(), point, maxSize))
      ensures old(role.Leader?) && m.term <= old(term) && m.from in Voters() && !m.reject ==>
                IsCommitPoint(old(View()).(match_ := old(match_)[m.from := m.index]), Voters(), point)
    {
      hide SendApps, AsSet, IsCommitPoint, Distinct, TermAt;
      point := 0;
      if role != Leader { return; }
      if m.term > term {
        BecomeFollower(m.term);
        return;
      }
      assert m.from in Voters() <==> m.from in Counted(peers) by { SetOf(Counted(peers), m.from); }
      if m.from !in Counted(peers) { return; }
      flight := flight - {m.from};
      if !m.reject {
        match_, next := match_[m.from := m.index], next[m.from := m.index + 1];
        ghost var noted := View();
        point := MaybeAdvance();
        SamePoint(noted, old(View()).(match_ := old(match_)[m.from := m.index]), Voters(), point);
      } else {
        var hint := m.index + 1;
        if hint < (if m.from in next then next[m.from] else start) { next := next[m.from := hint]; }
        if m.index < (if m.from in match_ then match_[m.from] else 0) { match_ := match_[m.from := m.index]; }
      }
      MaybeSend(m.from);
    }

    /** CETCD_MSG_PROP. */
    method Propose(data: seq<byte>) returns (accepted: bool, ghost point: nat)
      requires Valid()
      modifies this
      ensures Valid() && accepted == old(role.Leader?)
      ensures Became(Raft.Propose(old(View()), data, Voters(), point, maxSize))
      ensures accepted && peers != [] ==>
                IsCommitPoint(old(View()).(log := old(log) + [Entry(old(term), data)]), Voters(), point)
    {
      point := 0;
      if role != Leader { return false, 0; }
      log := log + [Entry(term, data)];
      lastTerm := term;
      disk := disk + [Stored(|log|, Entry(term, data))];
      SendAll();
      ghost var told := View();
      point := MaybeAdvance();
      if peers != [] {
        SamePoint(told, old(View()).(log := old(log) + [Entry(old(term), data)]), Voters(), point);
      }
      accepted := true;
    }

    method BeatPeer(p: nat)
      requires Valid()
      modifies this`sent, this`flight
      ensures Valid()
      ensures var x := old(View());
              var y := SendApps(x.(flight := x.flight - {p}), {p}, maxSize);
              Became(Out(y.node, {Heartbeat(x.id, p, x.term, x.commit)} + y.sent))
    {
      hide SendApps, AsSet;
      sent := sent + [Heartbeat(id, p, term, commit)];
      flight := flight - {p};
      MaybeSend(p);
    }

    /** CETCD_MSG_BEAT. */
    method Beat()
      requires Valid()
      modifies this
      ensures Valid() && Became(Raft.Beat(old(View()), Voters(), maxSize))
    {
      hide SendApps, AsSet, Distinct, Heartbeats, Beaten;
      if role != Leader { return; }
      var to := Counted(peers);
      ghost var n := View();
      BeatNone(n, maxSize);
      EmptySet();
      for i := 0 to |to|
        invariant View() == Beaten(n, AsSet(to[..i]), maxSize).node && Adds(Beaten(n, AsSet(to[..i]), maxSize).sent)
      {
        CountedStep(peers, i);
        BeatOneMore(n, AsSet(to[..i]), to[i], maxSize);
        if to[i] != id {
          BeatPeer(to[i]);
        }
      }
      assert to[..|to|] == to;
      BeatAll(n, Voters(), maxSize);
    }
  }
}
