/** How a follower's log comes to be its leader's: the two exchange appends and answers until the
    leader has nothing more to send.  Whether that ends with equal logs is decided by the first append. */
module RaftCatchUp {
  import opened Bytes
  import opened Raft
  import opened RaftDisk
  import opened RaftHistory
  import opened RaftRepair

  /** What the follower answers. */
  function Answer(f: Node, m: Msg): (a: Msg)
    requires m.App? && m.term >= f.term
    ensures a.AppResp?
  {
    if Accepts(f, m) then AppResp(f.id, m.from, m.term, |PutEntries(f.log, m.index + 1, m.entries)|, false) else Refusal(f, m)
  }

  lemma AnswerSent(f: Node, m: Msg)
    requires m.App? && m.term >= f.term
    ensures HandleApp(f, m).sent == {Answer(f, m)}
    ensures var o := HandleApp(f, m).node;
            && o.id == f.id && o.term == m.term
            && o.log == if Accepts(f, m) then PutEntries(f.log, m.index + 1, m.entries) else f.log
  {
    hide PutEntries, PutLast, Records;
  }

  /** Both nodes after up to `k` appends and answers; `points` are the commit points the leader finds. */
  ghost function Talk(l: Node, f: Node, voters: set<nat>, limit: nat, points: nat -> nat, k: nat): (Node, Node)
    decreases k
  {
    if k == 0 || !Probing(l, f, voters) then (l, f)
    else
      var m := Offer(l, f, limit);
      var o := HandleAppResp(l, Answer(f, m), voters, points(k), limit);
      Talk(o.node, HandleApp(f, m).node, voters, limit, points, k - 1)
  }

  lemma TalkStep(l: Node, f: Node, voters: set<nat>, limit: nat, points: nat -> nat, k: nat)
    requires k > 0 && Probing(l, f, voters)
    ensures Talk(l, f, voters, limit, points, k)
         == Talk(HandleAppResp(l, Answer(f, Offer(l, f, limit)), voters, points(k), limit).node,
                 HandleApp(f, Offer(l, f, limit)).node, voters, limit, points, k - 1)
  {
    hide HandleApp, HandleAppResp, Batch, Answer, Accepts;
  }

  lemma TalkEnds(l: Node, f: Node, voters: set<nat>, limit: nat, points: nat -> nat, k: nat)
    requires !Probing(l, f, voters)
    ensures Talk(l, f, voters, limit, points, k) == (l, f)
  {
  }

  /** Logs with the same term at an index are equal up to it. */
  ghost predicate Alike(a: Log, b: Log) {
    forall k {:trigger a[..k]} {:trigger b[..k]} ::
      0 < k <= |a| && k <= |b| && a[k - 1].term == b[k - 1].term ==> a[..k] == b[..k]
  }

  lemma PrefixAlike(a: Log, b: Log)
    requires b <= a
    ensures Alike(a, b)
  {
  }

  /** An append of a stretch of `a` to a log like it leaves that alone if it has the stretch already, and
      makes it `a` up to there if not. */
  lemma {:induction false} PutAlike(a: Log, f: Log, p: nat, e: nat)
    requires p <= e <= |a| && p <= |f| && f[..p] == a[..p] && Alike(a, f)
    ensures PutEntries(f, p + 1, a[p..e]) == if a[..e] <= f then f else a[..e]
    decreases e - p
  {
    hide PutEntries, PutLast, PutEntry, Records;
    if p == e {
      PutNone(f, 0, p + 1);
      assert a[p..e] == [];
    } else {
      PutStep(f, 0, p + 1, a[p..e]);
      assert a[p..e][0] == a[p] && a[p..e][1..] == a[p + 1..e];
      assert a[..p + 1] == a[..p] + [a[p]];
      if p < |f| && f[p].term == a[p].term {
        assert a[..p + 1] == f[..p + 1];
        PutSame(f, p + 1, a[p]);
        PutAlike(a, f, p + 1, e);
      } else {
        PutOther(f, p + 1, a[p]);
        PrefixAlike(a, a[..p + 1]);
        PutAlike(a, a[..p + 1], p + 1, e);
        if a[..e] <= f { There(a, f, p, e); }
        assert e > p + 1 || a[..e] == a[..p + 1];
      }
    }
  }

  lemma There(a: Log, f: Log, p: nat, e: nat)
    requires p < e <= |a| && a[..e] <= f
    ensures p < |f| && f[p] == a[p]
  {
    assert a[..e][p] == f[p];
  }

  lemma PutSame(f: Log, index: nat, e: Entry)
    requires 0 < index <= |f| && f[index - 1] == e
    ensures PutEntry(f, index, e) == f
  {
  }

  lemma PutOther(f: Log, index: nat, e: Entry)
    requires 0 < index <= |f| + 1 && (index == |f| + 1 || f[index - 1].term != e.term)
    ensures PutEntry(f, index, e) == f[..index - 1] + [e]
  {
  }

  /** One append accepted: the follower's log, and what the leader makes of the answer. */
  lemma Taken(l: Node, f: Node, voters: set<nat>, limit: nat, point: nat)
    requires Probing(l, f, voters) && Alike(l.log, f.log) && Accepts(f, Offer(l, f, limit))
    ensures var m := Offer(l, f, limit);
            var e := m.index + |m.entries|;
            var o, g := HandleAppResp(l, Answer(f, m), voters, point, limit), HandleApp(f, m).node;
            && NextOf(l, f.id) - 1 == m.index <= |f.log| && m.index < e <= |l.log| && l.log[..m.index] <= f.log
            && g.log == (if l.log[..e] <= f.log then f.log else l.log[..e])
            && g.id == f.id && g.term <= l.term
            && o.node.role.Leader? && o.node.id == l.id && o.node.term == l.term && o.node.log == l.log
            && NextOf(o.node, f.id) == |g.log| + 1 && MatchNoted(o.node, f.id) == |g.log|
            && o.sent == if |g.log| < |l.log| then {Offer(o.node, g, limit)} else {}
  {
    hide PutEntries, PutLast, HandleApp, HandleAppResp, Batch, Alike, Accepts, Refusal, NextOf, AppOf, MatchNoted;
    var m := Offer(l, f, limit);
    SamePart(l, f, limit);
    PutAlike(l.log, f.log, m.index, m.index + |m.entries|);
    AnswerSent(f, m);
    NotedNext(l, Answer(f, m), voters, point, limit);
    hide Offer;
    var o, g := HandleAppResp(l, Answer(f, m), voters, point, limit), HandleApp(f, m).node;
    if |g.log| < |l.log| { OfferIs(o.node, g, limit); }
  }

  lemma OfferIs(l: Node, f: Node, limit: nat)
    requires NextOf(l, f.id) == |f.log| + 1 <= |l.log|
    ensures Offer(l, f, limit) == AppOf(l, f.id, |f.log|, Batch(l.log, |f.log| + 1, limit))
  {
  }

  lemma SamePart(l: Node, f: Node, limit: nat)
    requires 0 < NextOf(l, f.id) <= |l.log| && Alike(l.log, f.log) && Accepts(f, Offer(l, f, limit))
    ensures var m := Offer(l, f, limit);
            && m.App? && m.index == NextOf(l, f.id) - 1 <= |f.log| && m.entries != [] && m.term == l.term && m.from == l.id
            && m.index + |m.entries| <= |l.log| && m.entries == l.log[m.index..m.index + |m.entries|]
            && f.log[..m.index] == l.log[..m.index]
  {
    hide Batch;
  }

  lemma NotedNext(l: Node, a: Msg, voters: set<nat>, point: nat, limit: nat)
    requires l.role.Leader? && a.AppResp? && !a.reject && a.term <= l.term && a.from in voters && a.from != l.id
    ensures var r := HandleAppResp(l, a, voters, point, limit);
            var o := r.node;
            && o.role.Leader? && o.id == l.id && o.term == l.term && o.log == l.log
            && NextOf(o, a.from) == a.index + 1 && MatchNoted(o, a.from) == a.index
            && r.sent == if a.index < |l.log| then {AppOf(o, a.from, a.index, Batch(l.log, a.index + 1, limit))} else {}
  {
    hide SendApps, TermAt, Batch, AppOf;
    SendsLeave();
    var d := MaybeCommit(l.(flight := l.flight - {a.from}, match_ := l.match_[a.from := a.index],
                            next := l.next[a.from := a.index + 1]), point);
    assert HandleAppResp(l, a, voters, point, limit) == SendApps(d, {a.from}, limit);
    if a.index < |l.log| {
      SentOne(d, a.from, limit);
      SameOffer(d, SendApps(d, {a.from}, limit).node, a.from, a.index, Batch(l.log, a.index + 1, limit));
    } else {
      NothingSent(d, a.from, limit);
    }
  }

  lemma NothingSent(n: Node, p: nat, limit: nat)
    requires NextOf(n, p) > |n.log|
    ensures SendApps(n, {p}, limit).sent == {}
  {
    assert !CanSend(n, p);
  }

  /** A follower whose log is the beginning of the leader's catches up: after as many rounds as it lacks
      entries, and one more, the logs are equal, the leader knows, and has nothing to send. */
  lemma {:induction false} CatchesUp(l: Node, f: Node, voters: set<nat>, limit: nat, points: nat -> nat, k: nat)
    requires Probing(l, f, voters) && f.log <= l.log && NextOf(l, f.id) <= |f.log| + 1
    requires k >= |l.log| - |f.log| + (if NextOf(l, f.id) == |f.log| + 1 then 0 else 1)
    ensures var (x, y) := Talk(l, f, voters, limit, points, k);
            && y.log == x.log == l.log && MatchNoted(x, f.id) == |l.log| && x.role.Leader? && x.term == l.term
            && !Probing(x, y, voters)
    decreases k
  {
    hide HandleApp, HandleAppResp, Batch, Answer, MatchNoted, Talk, Accepts, Alike;
    PrefixAlike(l.log, f.log);
    AcceptsPart(l, f, limit);
    TalkStep(l, f, voters, limit, points, k);
    Taken(l, f, voters, limit, points(k));
    var m := Offer(l, f, limit);
    var x, y := HandleAppResp(l, Answer(f, m), voters, points(k), limit).node, HandleApp(f, m).node;
    assert y.log <= l.log && |y.log| >= |f.log|;
    if Probing(x, y, voters) {
      CatchesUp(x, y, voters, limit, points, k - 1);
    } else {
      TalkEnds(x, y, voters, limit, points, k - 1);
    }
  }

  lemma AcceptsPart(l: Node, f: Node, limit: nat)
    requires 0 < NextOf(l, f.id) <= |l.log| && f.term <= l.term && f.log <= l.log && NextOf(l, f.id) <= |f.log| + 1
    ensures Accepts(f, Offer(l, f, limit))
  {
    hide Batch;
  }

  /** A refused offer behind which the terms differ is made for ever. */
  lemma {:induction false} Stuck(l: Node, f: Node, voters: set<nat>, limit: nat, points: nat -> nat, k: nat)
    requires Probing(l, f, voters) && !Accepts(f, Offer(l, f, limit)) && NextOf(l, f.id) <= |f.log| + 1
    ensures Talk(l, f, voters, limit, points, k).1.log == f.log != l.log
    decreases k
  {
    hide HandleApp, HandleAppResp, Batch;
    if k > 0 {
      AfterRefusal(l, f, voters, limit);
      var m := Offer(l, f, limit);
      RefusedAlike(l, Answer(f, m), voters, points(k), limit);
      RefusedOn(l, f, voters, limit);
      var x, y := HandleAppResp(l, Answer(f, m), voters, points(k), limit).node, HandleApp(f, m).node;
      Stuck(x, y, voters, limit, points, k - 1);
    }
    NotEqual(l, f, limit);
  }

  lemma NotEqual(l: Node, f: Node, limit: nat)
    requires 0 < NextOf(l, f.id) <= |l.log| && f.term <= l.term && !Accepts(f, Offer(l, f, limit)) && NextOf(l, f.id) <= |f.log| + 1
    ensures f.log != l.log
  {
    hide Batch;
  }

  /** A refusal moves no commit index. */
  lemma RefusedAlike(l: Node, a: Msg, voters: set<nat>, point: nat, limit: nat)
    requires a.AppResp? && a.reject
    ensures HandleAppResp(l, a, voters, point, limit) == HandleAppResp(l, a, voters, 0, limit)
  {
    hide SendApps;
  }

  lemma RefusedOn(l: Node, f: Node, voters: set<nat>, limit: nat)
    requires Probing(l, f, voters) && !Accepts(f, Offer(l, f, limit)) && NextOf(l, f.id) <= |f.log| + 1
    ensures var m := Offer(l, f, limit);
            var x, y := HandleAppResp(l, Refusal(f, m), voters, 0, limit).node, HandleApp(f, m).node;
            && Probing(x, y, voters) && !Accepts(y, Offer(x, y, limit)) && NextOf(x, y.id) <= |y.log| + 1
  {
    hide HandleApp, HandleAppResp, Batch;
    AfterRefusal(l, f, voters, limit);
    var m := Offer(l, f, limit);
    AnswerSent(f, m);
  }

  /** What the first append decides: the follower's log is the beginning of the leader's, or the append
      is accepted and takes the place of something there. */
  ghost predicate Decided(l: Node, f: Node, limit: nat)
    requires 0 < NextOf(l, f.id) <= |l.log|
  {
    || f.log <= l.log
    || var m := Offer(l, f, limit); Accepts(f, m) && !(l.log[..m.index + |m.entries|] <= f.log)
  }

  /** After enough rounds, and from then on, the follower's log is the leader's if and only if the first
      append decides so. */
  lemma CatchesUpIff(l: Node, f: Node, voters: set<nat>, limit: nat, points: nat -> nat, k: nat)
    requires Probing(l, f, voters) && Alike(l.log, f.log) && k >= |l.log| + 3
    ensures Talk(l, f, voters, limit, points, k).1.log == l.log <==> Decided(l, f, limit)
  {
    hide HandleApp, HandleAppResp, Batch, Alike;
    var m := Offer(l, f, limit);
    if NextOf(l, f.id) <= |f.log| + 1 {
      if f.log <= l.log {
        CatchesUp(l, f, voters, limit, points, k);
      } else if Accepts(f, m) {
        FirstTaken(l, f, voters, limit, points, k);
      } else {
        Stuck(l, f, voters, limit, points, k);
      }
    } else {
      FirstRefused(l, f, voters, limit, points, k);
    }
  }

  lemma FirstTaken(l: Node, f: Node, voters: set<nat>, limit: nat, points: nat -> nat, k: nat)
    requires Probing(l, f, voters) && Alike(l.log, f.log) && k >= |l.log| + 3
    requires Accepts(f, Offer(l, f, limit)) && !(f.log <= l.log)
    ensures Talk(l, f, voters, limit, points, k).1.log == l.log <==> Decided(l, f, limit)
  {
    hide HandleApp, HandleAppResp, Batch, Answer, MatchNoted, Alike, Talk, Accepts;
    var m := Offer(l, f, limit);
    Taken(l, f, voters, limit, points(k));
    var x, y := HandleAppResp(l, Answer(f, m), voters, points(k), limit).node, HandleApp(f, m).node;
    TalkStep(l, f, voters, limit, points, k);
    if !Probing(x, y, voters) {
      TalkEnds(x, y, voters, limit, points, k - 1);
    } else if y.log <= l.log {
      CatchesUp(x, y, voters, limit, points, k - 1);
    } else {
      LateMismatch(x, y, limit);
      Stuck(x, y, voters, limit, points, k - 1);
    }
  }

  /** Behind the end of a log that is not the beginning of the leader's, the terms differ. */
  lemma LateMismatch(x: Node, y: Node, limit: nat)
    requires 0 < NextOf(x, y.id) <= |x.log| && NextOf(x, y.id) == |y.log| + 1 && Alike(x.log, y.log) && !(y.log <= x.log)
    ensures !Accepts(y, Offer(x, y, limit))
  {
    hide Batch;
    EndAlike(x.log, y.log);
  }

  lemma EndAlike(a: Log, b: Log)
    requires Alike(a, b) && |b| <= |a|
    ensures (|b| == 0 || a[|b| - 1].term == b[|b| - 1].term) ==> b <= a
  {
    assert b[..|b|] == b;
  }

  lemma FirstRefused(l: Node, f: Node, voters: set<nat>, limit: nat, points: nat -> nat, k: nat)
    requires Probing(l, f, voters) && Alike(l.log, f.log) && k >= |l.log| + 3 && NextOf(l, f.id) > |f.log| + 1
    ensures Talk(l, f, voters, limit, points, k).1.log == l.log <==> Decided(l, f, limit)
  {
    hide HandleApp, HandleAppResp, Batch, Alike, Talk;
    var m := Offer(l, f, limit);
    assert !Accepts(f, m);
    hide Accepts, AppOf;
    AfterRefusal(l, f, voters, limit);
    AnswerSent(f, m);
    RefusedAlike(l, Answer(f, m), voters, points(k), limit);
    var x, y := HandleAppResp(l, Answer(f, m), voters, points(k), limit).node, HandleApp(f, m).node;
    TalkStep(l, f, voters, limit, points, k);
    if y.log <= l.log {
      CatchesUp(x, y, voters, limit, points, k - 1);
    } else {
      LateMismatch(x, y, limit);
      Stuck(x, y, voters, limit, points, k - 1);
    }
  }
}
