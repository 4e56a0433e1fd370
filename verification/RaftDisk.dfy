/** What a restart gives back.  Entries are stored in order and replayed in place: nothing is ever
    cut, so a log that was cut comes back with its old end, or with the term of its old end. */
module RaftDisk {
  import opened Bytes
  import opened Raft
  import opened RaftElection

  /** The greatest index ever stored. */
  function Top(disk: seq<Stored>): nat {
    if disk == [] then 0
    else if disk[|disk| - 1].index > Top(disk[..|disk| - 1]) then disk[|disk| - 1].index
    else Top(disk[..|disk| - 1])
  }

  /** The term of the first entry ever stored at index `k`; 0 if there is none. */
  function FirstTerm(disk: seq<Stored>, k: nat): nat {
    if disk == [] then 0
    else
      var init, r := disk[..|disk| - 1], disk[|disk| - 1];
      if Has(init, k) then FirstTerm(init, k) else if r.index == k then r.entry.term else 0
  }

  predicate Has(disk: seq<Stored>, k: nat) {
    exists j :: 0 <= j < |disk| && disk[j].index == k
  }

  /** Every entry was stored at an index its log had, or one further. */
  ghost predicate Stacked(disk: seq<Stored>) {
    forall j :: 0 <= j < |disk| ==> 0 < disk[j].index <= Top(disk[..j]) + 1
  }

  /** The log in memory is the beginning of what replay makes of the disk. */
  ghost predicate OnDisk(n: Node) {
    Stacked(n.disk) && n.log <= Replayed(n.disk).log
  }

  /** Nothing was ever stored past the end of the log, and what was first stored at its end has the
      term that is cached. */
  ghost predicate Intact(n: Node) {
    && (forall j :: 0 <= j < |n.disk| ==> n.disk[j].index <= |n.log|)
    && FirstTerm(n.disk, |n.log|) == n.lastTerm
  }

  lemma StackedInit(disk: seq<Stored>)
    requires Stacked(disk) && disk != []
    ensures Stacked(disk[..|disk| - 1]) && 0 < disk[|disk| - 1].index <= Top(disk[..|disk| - 1]) + 1
  {
    var init := disk[..|disk| - 1];
    forall j | 0 <= j < |init| ensures 0 < init[j].index <= Top(init[..j]) + 1 {
      assert init[..j] == disk[..j];
    }
  }

  lemma {:induction false} TopIs(disk: seq<Stored>)
    ensures forall j :: 0 <= j < |disk| ==> disk[j].index <= Top(disk)
    ensures Top(disk) == 0 || Has(disk, Top(disk))
  {
    if disk != [] {
      var n := |disk| - 1;
      var init := disk[..n];
      TopIs(init);
      assert forall j :: 0 <= j < n ==> init[j] == disk[j];
      if Top(disk) > 0 && disk[n].index <= Top(init) {
        var j :| 0 <= j < n && init[j].index == Top(init);
        assert disk[j].index == Top(disk);
      }
    }
  }

  /** Replay gives a log that ends with the greatest index stored and caches the term that was
      stored there first. */
  lemma {:induction false} ReplayIs(disk: seq<Stored>)
    requires Stacked(disk)
    ensures |Replayed(disk).log| == Top(disk) && Replayed(disk).last == FirstTerm(disk, Top(disk))
  {
    if disk != [] {
      var n := |disk| - 1;
      var init, r := disk[..n], disk[n];
      StackedInit(disk);
      ReplayIs(init);
      TopIs(init);
      assert forall j :: 0 <= j < n ==> init[j] == disk[j];
      assert r.index > Top(init) ==> !Has(init, r.index);
    }
  }

  /** A restart gives back the log and the cached term if and only if the node is intact. */
  lemma RestartExact(n: Node)
    requires OnDisk(n)
    ensures (Restarted(n).log == n.log && Restarted(n).lastTerm == n.lastTerm) <==> Intact(n)
  {
    ReplayIs(n.disk);
    TopIs(n.disk);
    var r := Replayed(n.disk).log;
    if Top(n.disk) > |n.log| {
      var j :| 0 <= j < |n.disk| && n.disk[j].index == Top(n.disk);
    } else {
      assert r == n.log;
    }
  }

  // ---------------------------------------------------------------- every step stores

  lemma {:induction false} StoreOne(log: seq<Entry>, disk: seq<Stored>, index: nat, e: Entry)
    requires 0 < index <= |log| + 1 && Stacked(disk) && log <= Replayed(disk).log
    ensures var more := disk + [Stored(index, e)];
            Stacked(more) && PutEntry(log, index, e) <= Replayed(more).log
  {
    var more := disk + [Stored(index, e)];
    ReplayIs(disk);
    assert more[..|disk|] == disk;
    forall j | 0 <= j < |more| ensures 0 < more[j].index <= Top(more[..j]) + 1 {
      if j < |disk| { assert more[..j] == disk[..j]; }
    }
    assert Replayed(more) == Placed(Replayed(disk), Stored(index, e));
    hide Replayed, Stacked, Top;
    PlacedOver(log, Replayed(disk), index, e);
  }

  lemma PlacedOver(log: seq<Entry>, im: Image, index: nat, e: Entry)
    requires 0 < index <= |log| + 1 && log <= im.log
    ensures PutEntry(log, index, e) <= Placed(im, Stored(index, e)).log
  {
    if index > |im.log| {
      assert seq(index - 1 - |im.log|, _ => Entry(0, [])) == [];
      assert log == im.log;
    }
  }

  lemma {:induction false} StoreMany(log: seq<Entry>, disk: seq<Stored>, index: nat, entries: seq<Entry>)
    requires 0 < index <= |log| + 1 && Stacked(disk) && log <= Replayed(disk).log
    ensures var more := disk + Records(index, entries);
            Stacked(more) && PutEntries(log, index, entries) <= Replayed(more).log
    decreases |entries|
  {
    hide Stacked, Replayed, PutEntry, PutEntries, PutLast, Records;
    if entries == [] {
      PutNone(log, 0, index);
      assert disk + Records(index, entries) == disk;
    } else {
      var e, rest := entries[0], entries[1..];
      var one, now := disk + [Stored(index, e)], PutEntry(log, index, e);
      StoreOne(log, disk, index, e);
      PutStep(log, 0, index, entries);
      StoreMany(now, one, index + 1, rest);
      assert disk + ([Stored(index, e)] + Records(index + 1, rest)) == one + Records(index + 1, rest);
    }
  }

  /** What a step does to log and disk. */
  ghost predicate DiskStep(n: Node, o: Node) {
    || (o.log == n.log && o.disk == n.disk)
    || (o.log == Replayed(n.disk).log && o.disk == n.disk)
    || (exists index: nat, entries ::
          0 < index <= |n.log| + 1 && o.log == PutEntries(n.log, index, entries) && o.disk == n.disk + Records(index, entries))
  }

  lemma NodeStepDisk(n: Node, e: Event, voters: set<nat>)
    ensures DiskStep(n, NodeStep(n, e, voters).node)
  {
    hide PutEntries, NoWorse, HasQuorum, SendApps, Replayed, Records, HandleApp, HandleAppResp, Beat;
    var o := NodeStep(n, e, voters).node;
    SendsLeave();
    if e.Deliver? && e.m.App? {
      AppDisk(n, e.m);
    } else if e.Deliver? && e.m.AppResp? {
      AnswerLeaves(n, e.m, voters, e.point, e.limit);
    } else if e.BeatAt? {
      BeatLeaves(n, voters, e.limit);
    } else if e.ProposeAt? && n.role.Leader? {
      ProposeDisk(n.log, n.term, e.data);
      assert o.log == PutEntries(n.log, |n.log| + 1, [Entry(n.term, e.data)]);
    }
  }

  lemma SendsLeave()
    ensures forall n, to, limit {:trigger SendApps(n, to, limit)} ::
              SendApps(n, to, limit).node == n.(flight := SendApps(n, to, limit).node.flight)
  {
    hide CanSend, AppTo;
  }

  lemma AnswerLeaves(n: Node, m: Msg, voters: set<nat>, point: nat, limit: nat)
    requires m.AppResp?
    ensures var o := HandleAppResp(n, m, voters, point, limit).node;
            o.log == n.log && o.disk == n.disk && o.lastTerm == n.lastTerm
  {
    hide SendApps, TermAt;
    SendsLeave();
  }

  lemma BeatLeaves(n: Node, voters: set<nat>, limit: nat)
    ensures var o := Beat(n, voters, limit).node;
            o.log == n.log && o.disk == n.disk && o.lastTerm == n.lastTerm && o.match_ == n.match_
  {
    hide SendApps;
    SendsLeave();
  }

  lemma AppDisk(n: Node, m: Msg)
    requires m.App?
    ensures DiskStep(n, HandleApp(n, m).node)
  {
    hide PutEntries, PutLast, Replayed, Records;
    var o := HandleApp(n, m).node;
    if o.disk != n.disk || o.log != n.log {
      assert 0 < m.index + 1 <= |n.log| + 1 && o.log == PutEntries(n.log, m.index + 1, m.entries);
    }
  }

  lemma ProposeDisk(log: seq<Entry>, t: nat, data: seq<byte>)
    ensures PutEntries(log, |log| + 1, [Entry(t, data)]) == log + [Entry(t, data)]
    ensures Records(|log| + 1, [Entry(t, data)]) == [Stored(|log| + 1, Entry(t, data))]
  {
    hide PutEntries, PutLast, Records;
    var one := [Entry(t, data)];
    assert one[1..] == [];
    PutStep(log, 0, |log| + 1, one);
    PutNone(log + one, 0, |log| + 2);
  }

  lemma StepOnDisk(n: Node, o: Node)
    requires OnDisk(n) && DiskStep(n, o)
    ensures OnDisk(o)
  {
    if !(o.disk == n.disk && (o.log == n.log || o.log == Replayed(n.disk).log)) {
      var index: nat, entries :| 0 < index <= |n.log| + 1 && o.log == PutEntries(n.log, index, entries)
                                 && o.disk == n.disk + Records(index, entries);
      StoreMany(n.log, n.disk, index, entries);
    }
  }

  /** `es` can happen from `c` on, with stale votes, restarts and all. */
  ghost predicate Possible(c: Cluster, es: seq<Event>)
    decreases |es|
  {
    es != [] ==> Enabled(c, es[0]) && Possible(Step(c, es[0]), es[1..])
  }

  ghost predicate AllOnDisk(c: Cluster) {
    forall i :: i in c.nodes ==> OnDisk(c.nodes[i])
  }

  lemma {:induction false} RunOnDisk(c: Cluster, es: seq<Event>)
    requires AllOnDisk(c) && Possible(c, es)
    ensures AllOnDisk(After(c, es))
    decreases |es|
  {
    if es != [] {
      var i := Actor(es[0]);
      NodeStepDisk(c.nodes[i], es[0], c.voters);
      StepOnDisk(c.nodes[i], NodeStep(c.nodes[i], es[0], c.voters).node);
      hide NodeStep, OnDisk, DiskStep, PointRight;
      RunOnDisk(Step(c, es[0]), es[1..]);
    }
  }

  /** Over every run whatever: a restart of a node gives back its log and cached term if and only if
      the node is intact. */
  lemma RestartInRun(voters: set<nat>, es: seq<Event>, i: nat)
    requires Possible(Initial(voters), es) && i in After(Initial(voters), es).nodes
    ensures var n := After(Initial(voters), es).nodes[i];
            (Restarted(n).log == n.log && Restarted(n).lastTerm == n.lastTerm) <==> Intact(n)
  {
    assert AllOnDisk(Initial(voters));
    RunOnDisk(Initial(voters), es);
    hide After, Restarted, Intact;
    RestartExact(After(Initial(voters), es).nodes[i]);
  }
}
