/** How a leader and a follower whose logs differ find out: the leader offers entries from some index
    on, the follower refuses, the leader offers others.  The follower says where its own log ends
    only if that is too short; if the terms differ it names the index it was asked about, and the
    leader offers the same again. */
module RaftRepair {
  import opened Raft
  import opened RaftHistory

  /** `l` leads and has entries to send to `f`, which is in no later term. */
  ghost predicate Probing(l: Node, f: Node, voters: set<nat>) {
    && l.role.Leader? && f.id != l.id && f.id in voters && f.term <= l.term
    && 0 < NextOf(l, f.id) <= |l.log|
  }

  function Offer(l: Node, f: Node, limit: nat): Msg
    requires 0 < NextOf(l, f.id) <= |l.log|
  {
    AppOf(l, f.id, NextOf(l, f.id) - 1, Batch(l.log, NextOf(l, f.id), limit))
  }

  /** The answer to an append that is not accepted. */
  function Refusal(f: Node, m: Msg): Msg
    requires m.App? && m.term >= f.term
  {
    AppResp(f.id, m.from, m.term, if m.index > |f.log| then |f.log| else m.index, true)
  }

  lemma RefusalSent(f: Node, m: Msg)
    requires m.App? && m.term >= f.term && !Accepts(f, m)
    ensures HandleApp(f, m) == Out(BecomeFollower(f, m.term), {Refusal(f, m)})
  {
  }

  /** Offers and refusals, up to `k` of them: both nodes after that. */
  ghost function Rounds(l: Node, f: Node, voters: set<nat>, limit: nat, k: nat): (Node, Node)
    decreases k
  {
    if k == 0 || !Probing(l, f, voters) || Accepts(f, Offer(l, f, limit)) then (l, f)
    else
      var m := Offer(l, f, limit);
      var o := HandleAppResp(l, Refusal(f, m), voters, 0, limit);
      Rounds(o.node, HandleApp(f, m).node, voters, limit, k - 1)
  }

  /** As far as both the leader's offer and the follower's log go, the terms agree. */
  predicate Meets(l: Node, f: Node) {
    var j := if NextOf(l, f.id) > |f.log| then |f.log| else if NextOf(l, f.id) > 0 then NextOf(l, f.id) - 1 else 0;
    j == 0 || TermAt(l.log, j) == TermAt(f.log, j)
  }

  /** After a refusal the leader offers entries from the end of the follower's log on if that is
      where it was too short, and what it offered before if not. */
  lemma AfterRefusal(l: Node, f: Node, voters: set<nat>, limit: nat)
    requires Probing(l, f, voters) && !Accepts(f, Offer(l, f, limit))
    ensures var m := Offer(l, f, limit);
            var o, g := HandleAppResp(l, Refusal(f, m), voters, 0, limit), HandleApp(f, m).node;
            && Probing(o.node, g, voters) && o.node.log == l.log && g.log == f.log && g.id == f.id
            && o.sent == {Offer(o.node, g, limit)}
            && NextOf(o.node, f.id) == (if m.index > |f.log| then |f.log| + 1 else NextOf(l, f.id))
            && (m.index <= |f.log| ==> Offer(o.node, g, limit) == m)
  {
    hide TermAt, HandleAppResp, Batch;
    var m := Offer(l, f, limit);
    RefusalSent(f, m);
    Hinted(l, f.id, m.term, Refusal(f, m).index, voters, limit);
  }

  /** The leader backs up to the index it was told, if that is further back. */
  lemma Hinted(l: Node, p: nat, t: nat, index: nat, voters: set<nat>, limit: nat)
    requires l.role.Leader? && p != l.id && p in voters && t <= l.term && 0 < NextOf(l, p) <= |l.log|
    ensures var o := HandleAppResp(l, AppResp(p, l.id, t, index, true), voters, 0, limit);
            && NextOf(o.node, p) == (if index + 1 < NextOf(l, p) then index + 1 else NextOf(l, p))
            && o.node.log == l.log && o.node.role == l.role && o.node.term == l.term
            && o.node.id == l.id && o.node.commit == l.commit
            && o.sent == {AppOf(l, p, NextOf(o.node, p) - 1, Batch(l.log, NextOf(o.node, p), limit))}
  {
    hide Batch, TermAt, SendApps, AppOf;
    var x := l.(flight := l.flight - {p});
    var b := if index + 1 < NextOf(x, p) then x.(next := x.next[p := index + 1]) else x;
    var d := if index < MatchNoted(b, p) then b.(match_ := b.match_[p := index]) else b;
    assert NextOf(d, p) == NextOf(b, p);
    SentOne(d, p, limit);
    SameOffer(d, l, p, NextOf(d, p) - 1, Batch(l.log, NextOf(d, p), limit));
    assert HandleAppResp(l, AppResp(p, l.id, t, index, true), voters, 0, limit) == SendApps(d, {p}, limit);
  }

  lemma SameOffer(a: Node, b: Node, p: nat, prev: nat, count: nat)
    requires a.id == b.id && a.term == b.term && a.log == b.log && a.commit == b.commit && prev + count <= |a.log|
    ensures AppOf(a, p, prev, count) == AppOf(b, p, prev, count)
  {
  }

  lemma SentOne(n: Node, p: nat, limit: nat)
    requires p != n.id && p !in n.flight && 0 < NextOf(n, p) <= |n.log|
    ensures SendApps(n, {p}, limit)
         == Out(n.(flight := n.flight + {p}), {AppOf(n, p, NextOf(n, p) - 1, Batch(n.log, NextOf(n, p), limit))})
  {
    hide Batch, TermAt;
    assert CanSend(n, p);
    var o := SendApps(n, {p}, limit);
    assert o.node.flight == n.flight + {p};
    assert o.sent == {AppTo(n, p, limit)};
  }

  /** After one refusal or any number of them, the next offer is accepted if and only if the logs met
      at the start.  So a leader that has offered entries behind which the terms differ never backs up, and
      the follower's log is never repaired. */
  lemma {:induction false} RepairedIff(l: Node, f: Node, voters: set<nat>, limit: nat, k: nat)
    requires Probing(l, f, voters) && k > 0
    ensures var (x, y) := Rounds(l, f, voters, limit, k);
            && Probing(x, y, voters) && (Accepts(y, Offer(x, y, limit)) <==> Meets(l, f))
            && x.log == l.log && y.log == f.log
    decreases k
  {
    hide HandleAppResp, HandleApp, Batch;
    var m := Offer(l, f, limit);
    if !Accepts(f, m) {
      AfterRefusal(l, f, voters, limit);
      var a, b := HandleAppResp(l, Refusal(f, m), voters, 0, limit).node, HandleApp(f, m).node;
      if k > 1 { RepairedIff(a, b, voters, limit, k - 1); }
    }
  }
}
