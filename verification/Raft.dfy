/** One Raft node (src/raft/raft.c): the message handlers, for a fixed set of voters and a log that
    is not compacted. */
module Raft {
  import opened Bytes

  datatype Role = Follower | Candidate | Leader | PreCandidate

  datatype Entry = Entry(term: nat, data: seq<byte>)

  /** An entry as it went to the write-ahead log. */
  datatype Stored = Stored(index: nat, entry: Entry)

  /** `vote` of 0 is no vote; `log[k]` is the entry with index k + 1.  `lastTerm` is the cached term of
      the last entry, and `disk` every entry stored, in order.  A leader keeps for each peer the index
      it has matched, the index to send next (`start` where `next` has none), and whether an append
      is on its way (`flight`). */
  datatype Node = Node(id: nat, term: nat, vote: nat, role: Role, votes: set<nat>,
                       log: seq<Entry>, commit: nat, match_: map<nat, nat>,
                       lastTerm: nat, disk: seq<Stored>, start: nat, next: map<nat, nat>, flight: set<nat>)

  datatype Msg =
    | Vote(from: nat, to: nat, term: nat, index: nat, logTerm: nat)
    | VoteResp(from: nat, to: nat, term: nat, reject: bool)
    | PreVote(from: nat, to: nat, term: nat, index: nat, logTerm: nat)
    | PreVoteResp(from: nat, to: nat, term: nat, reject: bool)
    | App(from: nat, to: nat, term: nat, index: nat, logTerm: nat, entries: seq<Entry>, commit: nat)
    | AppResp(from: nat, to: nat, term: nat, index: nat, reject: bool)
    | Heartbeat(from: nat, to: nat, term: nat, commit: nat)

  /** The node after a step, and the messages it queued. */
  datatype Out = Out(node: Node, sent: set<Msg>)

  function NewNode(id: nat): Node {
    Node(id, 0, 0, Follower, {}, [], 0, map[], 0, [], 1, map[], {})
  }

  // --------------------------------------------------------------------------- the log

  function TermAt(log: seq<Entry>, index: nat): nat {
    if index == 0 || index > |log| then 0 else log[index - 1].term
  }

  function LastTerm(log: seq<Entry>): nat {
    TermAt(log, |log|)
  }

  /** log_ok_for_vote_: a log that ends with this index and term is at least as up to date as one of
      `size` entries whose last has term `last`. */
  predicate NoWorse(size: nat, last: nat, index: nat, logTerm: nat) {
    logTerm > last || (logTerm == last && index >= size)
  }

  predicate UpToDate(log: seq<Entry>, index: nat, logTerm: nat) {
    NoWorse(|log|, LastTerm(log), index, logTerm)
  }

  /** One entry of an append: cut the log where the terms differ, then store the entry. */
  function PutEntry(log: seq<Entry>, index: nat, e: Entry): seq<Entry>
    requires 0 < index <= |log| + 1
  {
    if index <= |log| && log[index - 1].term != e.term then log[..index - 1] + [e]
    else if index <= |log| then log[index - 1 := e]
    else log + [e]
  }

  /** The entries of an append from `index` on. */
  function PutEntries(log: seq<Entry>, index: nat, entries: seq<Entry>): seq<Entry>
    requires 0 < index <= |log| + 1
    decreases |entries|
  {
    if entries == [] then log else PutEntries(PutEntry(log, index, entries[0]), index + 1, entries[1..])
  }

  /** The cached last term after such an append: it is set where the log is cut or grows. */
  function PutLast(log: seq<Entry>, last: nat, index: nat, entries: seq<Entry>): nat
    requires 0 < index <= |log| + 1
    decreases |entries|
  {
    if entries == [] then last
    else
      var e := entries[0];
      PutLast(PutEntry(log, index, e), if index <= |log| && log[index - 1].term == e.term then last else e.term,
              index + 1, entries[1..])
  }

  lemma {:induction false} PutLastRight(log: seq<Entry>, last: nat, index: nat, entries: seq<Entry>)
    requires 0 < index <= |log| + 1 && last == LastTerm(log)
    ensures PutLast(log, last, index, entries) == LastTerm(PutEntries(log, index, entries))
    decreases |entries|
  {
    if entries != [] {
      var e, now := entries[0], PutEntry(log, index, entries[0]);
      assert LastTerm(now) == if index <= |log| && log[index - 1].term == e.term then last else e.term;
      PutLastRight(now, LastTerm(now), index + 1, entries[1..]);
    }
  }

  // ------------------------------------------------------------------------ the disk

  function Records(index: nat, entries: seq<Entry>): seq<Stored>
    decreases |entries|
  {
    if entries == [] then [] else [Stored(index, entries[0])] + Records(index + 1, entries[1..])
  }

  /** What a restart finds: the log and the cached last term. */
  datatype Image = Image(log: seq<Entry>, last: nat)

  /** cetcd_raft_restore_entry: in place, without cutting; the cached term moves only when the log
      grows, and slots skipped over are blank. */
  function Placed(im: Image, r: Stored): Image {
    if r.index == 0 then im
    else if r.index <= |im.log| then im.(log := im.log[r.index - 1 := r.entry])
    else Image(im.log + seq(r.index - 1 - |im.log|, _ => Entry(0, [])) + [r.entry], r.entry.term)
  }

  /** replay_wal_: every stored entry, in order. */
  function Replayed(disk: seq<Stored>): Image {
    if disk == [] then Image([], 0) else Placed(Replayed(disk[..|disk| - 1]), disk[|disk| - 1])
  }

  /** A node started anew from its write-ahead log. */
  function Restarted(n: Node): Node {
    var im := Replayed(n.disk);
    NewNode(n.id).(term := n.term, vote := n.vote, commit := n.commit, log := im.log, lastTerm := im.last, disk := n.disk)
  }

  /** Storing one entry of an append, then the rest. */
  lemma PutStep(log: seq<Entry>, last: nat, index: nat, entries: seq<Entry>)
    requires 0 < index <= |log| + 1 && entries != []
    ensures var now := PutEntry(log, index, entries[0]);
            && index <= |now|
            && PutEntries(log, index, entries) == PutEntries(now, index + 1, entries[1..])
            && PutLast(log, last, index, entries)
            == PutLast(now, if index <= |log| && log[index - 1].term == entries[0].term then last else entries[0].term,
                       index + 1, entries[1..])
            && Records(index, entries) == [Stored(index, entries[0])] + Records(index + 1, entries[1..])
  {
  }

  lemma PutNone(log: seq<Entry>, last: nat, index: nat)
    requires 0 < index <= |log| + 1
    ensures PutEntries(log, index, []) == log && PutLast(log, last, index, []) == last && Records(index, []) == []
  {
  }

  // ------------------------------------------------------------------------- the quorum

  function AsSet(s: seq<nat>): set<nat> {
    set x | x in s
  }

  function QuorumSize(n: nat): nat {
    n / 2 + 1
  }

  predicate HasQuorum(voters: set<nat>, votes: set<nat>) {
    voters != {} && |voters * votes| >= QuorumSize(|voters|)
  }

  /** Two quorums share a voter. */
  lemma QuorumsMeet(voters: set<nat>, a: set<nat>, b: set<nat>) returns (v: nat)
    requires HasQuorum(voters, a) && HasQuorum(voters, b)
    ensures v in voters && v in a && v in b
  {
    var x, y := voters * a, voters * b;
    if x * y == {} {
      assert |x + y| == |x| + |y|;
      SubsetSize(x + y, voters);
    }
    v :| v in x * y;
  }

  lemma {:induction false} SubsetSize(a: set<nat>, b: set<nat>)
    requires a <= b
    ensures |a| <= |b|
    decreases |a|
  {
    if a != {} {
      var x :| x in a;
      SubsetSize(a - {x}, b - {x});
    }
  }

  // ----------------------------------------------------------------- the commit index

  /** How many values are at least `x`. */
  function AtLeast(s: seq<nat>, x: nat): nat {
    if s == [] then 0 else (if s[0] >= x then 1 else 0) + AtLeast(s[1..], x)
  }

  /** `r` is the greatest index that a quorum of the values reaches. */
  ghost predicate IsMajority(s: seq<nat>, r: nat) {
    AtLeast(s, r) >= QuorumSize(|s|) && forall x :: x > r ==> AtLeast(s, x) < QuorumSize(|s|)
  }

  ghost predicate Descending(s: seq<nat>, n: nat)
    requires n <= |s|
  {
    forall i, j :: 0 <= i < n && i < j < |s| ==> s[i] >= s[j]
  }

  lemma {:induction false} AtLeastConcat(a: seq<nat>, b: seq<nat>, x: nat)
    ensures AtLeast(a + b, x) == AtLeast(a, x) + AtLeast(b, x)
  {
    if a == [] {
      assert a + b == b;
    } else {
      assert (a + b)[1..] == a[1..] + b;
      AtLeastConcat(a[1..], b, x);
    }
  }

  lemma {:induction false} AtLeastBounds(s: seq<nat>, x: nat)
    ensures AtLeast(s, x) <= |s|
    ensures (forall i :: 0 <= i < |s| ==> s[i] >= x) ==> AtLeast(s, x) == |s|
    ensures (forall i :: 0 <= i < |s| ==> s[i] < x) ==> AtLeast(s, x) == 0
  {
    if s != [] {
      AtLeastBounds(s[1..], x);
    }
  }

  lemma {:induction false} AtLeastSwap(s: seq<nat>, i: nat, j: nat, x: nat)
    requires i < j < |s|
    ensures AtLeast(s[i := s[j]][j := s[i]], x) == AtLeast(s, x)
  {
    var a, b, c := s[..i], s[i + 1..j], s[j + 1..];
    var t := s[i := s[j]][j := s[i]];
    assert s == a + ([s[i]] + (b + ([s[j]] + c)));
    assert t == a + ([s[j]] + (b + ([s[i]] + c)));
    AtLeastConcat(a, [s[i]] + (b + ([s[j]] + c)), x);
    AtLeastConcat([s[i]], b + ([s[j]] + c), x);
    AtLeastConcat(b, [s[j]] + c, x);
    AtLeastConcat([s[j]], c, x);
    AtLeastConcat(a, [s[j]] + (b + ([s[i]] + c)), x);
    AtLeastConcat([s[j]], b + ([s[i]] + c), x);
    AtLeastConcat(b, [s[i]] + c, x);
    AtLeastConcat([s[i]], c, x);
  }

  lemma {:induction false} SortedMajority(s: seq<nat>)
    requires s != [] && Descending(s, |s|)
    ensures QuorumSize(|s|) <= |s| && IsMajority(s, s[QuorumSize(|s|) - 1])
  {
    var q := QuorumSize(|s|);
    var r := s[q - 1];
    assert s == s[..q] + s[q..];
    AtLeastConcat(s[..q], s[q..], r);
    AtLeastBounds(s[..q], r);
    hide AtLeast;
    forall x | x > r ensures AtLeast(s, x) < q {
      FewAbove(s, q - 1, x);
    }
  }

  lemma {:induction false} FewAbove(s: seq<nat>, k: nat, x: nat)
    requires k < |s| && Descending(s, |s|) && s[k] < x
    ensures AtLeast(s, x) <= k
  {
    assert s == s[..k] + s[k..];
    AtLeastConcat(s[..k], s[k..], x);
    AtLeastBounds(s[..k], x);
    AtLeastBounds(s[k..], x);
  }

  const MAX_PEERS := 16

  /** The peers there is room for: the first sixteen. */
  function Counted(s: seq<nat>): seq<nat> {
    if |s| > MAX_PEERS then s[..MAX_PEERS] else s
  }

  /** majority_match_ids_: exchange sort, greatest first, then the value at the quorum place. */
  method MajorityMatch(all: seq<nat>) returns (r: nat)
    ensures all == [] ==> r == 0
    ensures all != [] ==> IsMajority(Counted(all), r)
  {
    if |all| == 0 { return 0; }
    var matches := Counted(all);
    var m := |matches|;
    var sorted := matches;
    for i := 0 to m
      invariant |sorted| == m && Descending(sorted, i)
      invariant forall x: nat :: AtLeast(sorted, x) == AtLeast(matches, x)
    {
      for j := i + 1 to m
        invariant |sorted| == m && Descending(sorted, i)
        invariant forall k :: i < k < j ==> sorted[i] >= sorted[k]
        invariant forall x: nat :: AtLeast(sorted, x) == AtLeast(matches, x)
      {
        if sorted[j] > sorted[i] {
          forall x: nat ensures AtLeast(sorted[i := sorted[j]][j := sorted[i]], x) == AtLeast(sorted, x) {
            AtLeastSwap(sorted, i, j, x);
          }
          sorted := sorted[i := sorted[j]][j := sorted[i]];
        }
      }
    }
    SortedMajority(sorted);
    r := sorted[QuorumSize(m) - 1];
  }

  // --------------------------------------------------------------------- role changes

  function BecomeFollower(n: Node, term: nat): Node {
    if term > n.term then n.(role := Follower, term := term, vote := 0) else n.(role := Follower)
  }

  function BecomeLeader(n: Node): Node {
    n.(role := Leader, match_ := map[], start := |n.log| + 1, next := map[], flight := {})
  }

  /** A new term, a vote for itself, and votes asked from the others; alone it wins at once. */
  function BecomeCandidate(n: Node, voters: set<nat>): Out {
    var c := n.(role := Candidate, term := n.term + 1, vote := n.id, votes := {n.id});
    if HasQuorum(voters, c.votes) then Out(BecomeLeader(c), {})
    else Out(c, set p | p in voters && p != n.id :: Vote(n.id, p, c.term, |n.log|, n.lastTerm))
  }

  function BecomePreCandidate(n: Node, voters: set<nat>): Out {
    var c := n.(role := PreCandidate, votes := {n.id});
    if HasQuorum(voters, c.votes) then BecomeCandidate(c, voters)
    else Out(c, set p | p in voters && p != n.id :: PreVote(n.id, p, c.term + 1, |n.log|, n.lastTerm))
  }

  // ------------------------------------------------------------------------- sending

  /** The entries from index `next` on that fit one append: at least one, at most 256, and no more
      than `limit` bytes with 16 for each entry; a limit of 0 is a megabyte. */
  function BatchFrom(log: seq<Entry>, at: nat, n: nat, bytes: nat, limit: nat): (r: nat)
    requires at <= |log|
    ensures n <= r && at + (r - n) <= |log| && (at < |log| && n == 0 ==> r > 0)
    decreases |log| - at
  {
    if at == |log| || n >= 256 then n
    else
      var add := |log[at].data| + 16;
      if n > 0 && bytes + add > (if limit == 0 then 1048576 else limit) then n
      else BatchFrom(log, at + 1, n + 1, bytes + add, limit)
  }

  function Batch(log: seq<Entry>, next: nat, limit: nat): (r: nat)
    requires 0 < next <= |log|
    ensures 0 < r && next - 1 + r <= |log|
  {
    BatchFrom(log, next - 1, 0, 0, limit)
  }

  function NextOf(n: Node, p: nat): nat {
    if p in n.next then n.next[p] else n.start
  }

  function SendFrom(n: Node, p: nat): nat {
    if NextOf(n, p) == 0 then 1 else NextOf(n, p)
  }

  predicate CanSend(n: Node, p: nat) {
    p != n.id && p !in n.flight && SendFrom(n, p) <= |n.log|
  }

  /** An append that carries this stretch of the log. */
  function AppOf(n: Node, to: nat, prev: nat, count: nat): Msg
    requires prev + count <= |n.log|
  {
    App(n.id, to, n.term, prev, TermAt(n.log, prev), n.log[prev..prev + count], n.commit)
  }

  function AppTo(n: Node, p: nat, limit: nat): Msg
    requires CanSend(n, p)
  {
    AppOf(n, p, SendFrom(n, p) - 1, Batch(n.log, SendFrom(n, p), limit))
  }

  /** maybe_send_app_ for each of these peers; `limit` is max_size_per_msg. */
  function SendApps(n: Node, to: set<nat>, limit: nat): Out {
    Out(n.(flight := n.flight + set p | p in to && CanSend(n, p)),
        set p | p in to && CanSend(n, p) :: AppTo(n, p, limit))
  }

  // ------------------------------------------------------------------------- handlers

  function Heartbeats(n: Node, voters: set<nat>): set<Msg> {
    set p | p in voters && p != n.id :: Heartbeat(n.id, p, n.term, n.commit)
  }

  /** CETCD_MSG_HUP. */
  function Hup(n: Node, voters: set<nat>, preVote: bool): Out {
    if n.role.Leader? then Out(n, {})
    else if preVote then BecomePreCandidate(n, voters) else BecomeCandidate(n, voters)
  }

  /** CETCD_MSG_TIMEOUT_NOW. */
  function TimeoutNow(n: Node, voters: set<nat>): Out {
    if n.role.Leader? then Out(n, {}) else BecomeCandidate(n, voters)
  }

  function HandleVote(n: Node, m: Msg): Out
    requires m.Vote?
  {
    if m.term < n.term then Out(n, {VoteResp(n.id, m.from, n.term, true)})
    else
      var f := if m.term > n.term then BecomeFollower(n, m.term) else n;
      if (f.vote == 0 || f.vote == m.from) && NoWorse(|f.log|, f.lastTerm, m.index, m.logTerm)
      then Out(f.(vote := m.from), {VoteResp(n.id, m.from, f.term, false)})
      else Out(f, {VoteResp(n.id, m.from, f.term, true)})
  }

  /** A granted vote counts whatever term it was granted in, as long as that is not later. */
  function HandleVoteResp(n: Node, m: Msg, voters: set<nat>): Out
    requires m.VoteResp?
  {
    if m.term > n.term then Out(BecomeFollower(n, m.term), {})
    else if !n.role.Candidate? || m.reject then Out(n, {})
    else
      var c := n.(votes := n.votes + {m.from});
      if HasQuorum(voters, c.votes) then var l := BecomeLeader(c); Out(l, Heartbeats(l, voters))
      else Out(c, {})
  }

  /** `busy` is whether a live leader is known and check-quorum is on. */
  function HandlePreVote(n: Node, m: Msg, busy: bool): Out
    requires m.PreVote?
  {
    var reject := m.term < n.term || busy || !NoWorse(|n.log|, n.lastTerm, m.index, m.logTerm);
    Out(n, {PreVoteResp(n.id, m.from, if reject then n.term else m.term, reject)})
  }

  function HandlePreVoteResp(n: Node, m: Msg, voters: set<nat>): Out
    requires m.PreVoteResp?
  {
    if m.reject then Out(if m.term > n.term then BecomeFollower(n, m.term) else n, {})
    else if !n.role.PreCandidate? then Out(n, {})
    else
      var c := n.(votes := n.votes + {m.from});
      if HasQuorum(voters, c.votes) then
        var o := BecomeCandidate(c, voters);
        if o.node.role.Leader? then Out(o.node, o.sent + Heartbeats(o.node, voters)) else o
      else Out(c, {})
  }

  /** The commit index a follower takes over: never past its own log, never back. */
  function Advanced(n: Node, commit: nat): Node {
    var c := Min(commit, |n.log|);
    if commit > n.commit && c > n.commit then n.(commit := c) else n
  }

  function HandleApp(n: Node, m: Msg): Out
    requires m.App?
  {
    if m.term < n.term then Out(n, {AppResp(n.id, m.from, n.term, 0, true)})
    else
      var f := BecomeFollower(n, m.term);
      if m.index > |f.log| then Out(f, {AppResp(n.id, m.from, f.term, |f.log|, true)})
      else if m.index > 0 && TermAt(f.log, m.index) != m.logTerm
      then Out(f, {AppResp(n.id, m.from, f.term, m.index, true)})
      else
        var g := Advanced(f.(log := PutEntries(f.log, m.index + 1, m.entries),
                             lastTerm := PutLast(f.log, f.lastTerm, m.index + 1, m.entries),
                             disk := f.disk + Records(m.index + 1, m.entries)), m.commit);
        Out(g, {AppResp(n.id, m.from, g.term, |g.log|, false)})
  }

  function HandleHeartbeat(n: Node, m: Msg): Out
    requires m.Heartbeat?
  {
    if m.term < n.term then Out(n, {}) else Out(Advanced(BecomeFollower(n, m.term), m.commit), {})
  }

  function MatchOf(n: Node, v: nat): nat {
    if v == n.id then |n.log| else if v in n.match_ then n.match_[v] else 0
  }

  function Reached(n: Node, voters: set<nat>, x: nat): set<nat> {
    set v | v in voters && MatchOf(n, v) >= x
  }

  /** `c` is the greatest index a quorum of voters has reached, as MajorityMatch finds it. */
  ghost predicate IsCommitPoint(n: Node, voters: set<nat>, c: nat) {
    && |Reached(n, voters, c)| >= QuorumSize(|voters|)
    && forall x :: x > c ==> |Reached(n, voters, x)| < QuorumSize(|voters|)
  }

  lemma SamePoint(a: Node, b: Node, voters: set<nat>, point: nat)
    requires a.id == b.id && a.log == b.log && a.match_ == b.match_ && IsCommitPoint(a, voters, point)
    ensures IsCommitPoint(b, voters, point)
  {
    forall x: nat ensures Reached(a, voters, x) == Reached(b, voters, x) {
    }
  }

  /** maybe_advance_commit_: only entries of the leader's own term. */
  function MaybeCommit(n: Node, point: nat): Node {
    if n.role.Leader? && point > n.commit && TermAt(n.log, point) == n.term then n.(commit := point) else n
  }

  function MatchNoted(n: Node, p: nat): nat {
    if p in n.match_ then n.match_[p] else 0
  }

  /** `point` is the commit point after the answer is noted. */
  function HandleAppResp(n: Node, m: Msg, voters: set<nat>, point: nat, limit: nat): Out
    requires m.AppResp?
  {
    if !n.role.Leader? then Out(n, {})
    else if m.term > n.term then Out(BecomeFollower(n, m.term), {})
    else if m.from !in voters then Out(n, {})
    else
      var a := n.(flight := n.flight - {m.from});
      if m.reject then
        var b := if m.index + 1 < NextOf(a, m.from) then a.(next := a.next[m.from := m.index + 1]) else a;
        var d := if m.index < MatchNoted(b, m.from) then b.(match_ := b.match_[m.from := m.index]) else b;
        SendApps(d, {m.from}, limit)
      else
        var b := a.(match_ := a.match_[m.from := m.index], next := a.next[m.from := m.index + 1]);
        SendApps(MaybeCommit(b, point), {m.from}, limit)
  }

  /** CETCD_MSG_PROP: the appends go out before the commit index moves. */
  function Propose(n: Node, data: seq<byte>, voters: set<nat>, point: nat, limit: nat): Out {
    if !n.role.Leader? then Out(n, {})
    else
      var e := Entry(n.term, data);
      var o := SendApps(n.(log := n.log + [e], lastTerm := n.term, disk := n.disk + [Stored(|n.log| + 1, e)]), voters, limit);
      Out(MaybeCommit(o.node, point), o.sent)
  }

  /** CETCD_MSG_BEAT: heartbeats, and an append to everyone who lacks something. */
  function Beat(n: Node, voters: set<nat>, limit: nat): Out {
    if !n.role.Leader? then Out(n, {})
    else
      var o := SendApps(n.(flight := n.flight - (voters - {n.id})), voters, limit);
      Out(o.node, o.sent + Heartbeats(n, voters))
  }
}
