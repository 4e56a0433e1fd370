/** cetcd_backend_defrag (src/backend/backend.c): compact-copy the database file next to the live
    one, then swap the two by renames, with the old file as a backup. */
module Defrag {
  import opened Bytes

  /** What the records of a database are; compaction keeps them. */
  type Db = seq<byte>

  const NO_RECORDS: Db := []

  datatype File = Absent | Partial | Holds(db: Db)

  /** data.mdb, data.mdb.bak, .defrag/data.mdb, and whether .defrag exists. */
  datatype Disk = Disk(live: File, bak: File, copy: File, dir: bool)

  /** Which operations succeed, in the order of the code; `leftover` is what a failed copy
      leaves behind. */
  datatype Faults = Faults(
    unlink0: bool, rmdir0: bool, mkdir: bool, copy: bool, leftover: File,
    unlinkBak: bool, rename1: bool, rename2: bool, rollback: bool, unlinkBak2: bool,
    unlink1: bool, rmdir1: bool, reopen: bool)

  /** Every disk state the run passes through, in order, the last one being the one it leaves;
      whether it reports success; and whether the environment is open afterwards. */
  datatype Outcome = Outcome(trace: seq<Disk>, ok: bool, open: bool)

  function Unlink(d: Disk, ok: bool): Disk {
    if ok then d.(copy := Absent) else d
  }

  function Rmdir(d: Disk, ok: bool): Disk {
    if ok && d.copy.Absent? then d.(dir := false) else d
  }

  /** clean_defrag_dir_: two states. */
  function Cleaned(d: Disk, unlink: bool, rmdir: bool): seq<Disk> {
    [Unlink(d, unlink), Rmdir(Unlink(d, unlink), rmdir)]
  }

  /** mdb_env_open creates an empty database when there is no file. */
  function Reopened(d: Disk, ok: bool): Disk {
    if ok && d.live.Absent? then d.(live := Holds(NO_RECORDS)) else d
  }

  function Last(t: seq<Disk>): Disk
    requires t != []
  {
    t[|t| - 1]
  }

  /** The end shared by all paths after the environment is closed: clean up, then reopen. */
  function Ending(d: Disk, f: Faults, ok: bool): Outcome {
    var c := Cleaned(d, f.unlink1, f.rmdir1);
    Outcome(c + [Reopened(Last(c), f.reopen)], ok && f.reopen, f.reopen)
  }

  function Prefixed(t: seq<Disk>, o: Outcome): Outcome {
    o.(trace := t + o.trace)
  }

  /** From the closed environment with a complete copy: the swap. */
  function Swap(d: Disk, f: Faults): Outcome {
    var u := if f.unlinkBak then d.(bak := Absent) else d;
    if !f.rename1 then Prefixed([u], Ending(u, f, false))
    else
      var r1 := u.(live := Absent, bak := u.live);
      if !f.rename2 then
        var rb := if f.rollback then r1.(live := r1.bak, bak := Absent) else r1;
        Prefixed([u, r1, rb], Ending(rb, f, false))
      else
        var r2 := r1.(live := r1.copy, copy := Absent);
        var v := if f.unlinkBak2 then r2.(bak := Absent) else r2;
        Prefixed([u, r1, r2, v], Ending(v, f, true))
  }

  /** The whole run, with the environment open on `d.live`. */
  function Defragged(d: Disk, f: Faults): Outcome {
    var c := Cleaned(d, f.unlink0, f.rmdir0);
    var e := Last(c);
    if !f.mkdir || e.dir then Outcome([d] + c, false, true)
    else
      var m := e.(dir := true);
      var half := m.(copy := Partial);
      if !f.copy then
        var left := m.(copy := f.leftover);
        Outcome([d] + c + [m, half, left] + Cleaned(left, f.unlink1, f.rmdir1), false, true)
      else
        var full := m.(copy := d.live);
        Prefixed([d] + c + [m, half, full], Swap(full, f))
  }

  // ------------------------------------------------------------------------- theorems

  /** The database is complete at the live or the backup path. */
  predicate Recoverable(d: Disk, db: Db) {
    d.live == Holds(db) || d.bak == Holds(db)
  }

  ghost predicate AllRecoverable(t: seq<Disk>, db: Db) {
    forall i :: 0 <= i < |t| ==> Recoverable(t[i], db)
  }

  lemma EndingSafe(d: Disk, f: Faults, ok: bool, db: Db)
    requires Recoverable(d, db)
    ensures AllRecoverable(Ending(d, f, ok).trace, db)
  {
  }

  lemma BothSafe(s: seq<Disk>, t: seq<Disk>, db: Db)
    requires AllRecoverable(s, db) && AllRecoverable(t, db)
    ensures AllRecoverable(s + t, db)
  {
  }

  lemma SwapSafe(d: Disk, f: Faults, db: Db)
    requires d.live == Holds(db) && d.copy == Holds(db)
    ensures AllRecoverable(Swap(d, f).trace, db)
  {
    var u := if f.unlinkBak then d.(bak := Absent) else d;
    if !f.rename1 {
      EndingSafe(u, f, false, db);
    } else {
      var r1 := u.(live := Absent, bak := u.live);
      if !f.rename2 {
        var rb := if f.rollback then r1.(live := r1.bak, bak := Absent) else r1;
        EndingSafe(rb, f, false, db);
      } else {
        var r2 := r1.(live := r1.copy, copy := Absent);
        var v := if f.unlinkBak2 then r2.(bak := Absent) else r2;
        EndingSafe(v, f, true, db);
      }
    }
  }

  /** Whatever fails, and wherever a crash stops the run, the database is complete at the live or
      the backup path. */
  lemma NeverLost(d: Disk, f: Faults, db: Db)
    requires d.live == Holds(db)
    ensures AllRecoverable(Defragged(d, f).trace, db)
  {
    hide Swap;
    var c := Cleaned(d, f.unlink0, f.rmdir0);
    var e := Last(c);
    var m := e.(dir := true);
    var half := m.(copy := Partial);
    BothSafe([d], c, db);
    if f.mkdir && !e.dir {
      if f.copy {
        var full := m.(copy := d.live);
        BothSafe([d] + c, [m, half, full], db);
        SwapSafe(full, f, db);
        BothSafe([d] + c + [m, half, full], Swap(full, f).trace, db);
      } else {
        var left := m.(copy := f.leftover);
        BothSafe([d] + c, [m, half, left], db);
        BothSafe([d] + c + [m, half, left], Cleaned(left, f.unlink1, f.rmdir1), db);
      }
    }
  }

  /** The run gets as far as the swap. */
  predicate Swaps(d: Disk, f: Faults) {
    f.mkdir && !Last(Cleaned(d, f.unlink0, f.rmdir0)).dir && f.copy
  }

  lemma EndIs(before: seq<Disk>, d: Disk, f: Faults, ok: bool)
    ensures var o := Prefixed(before, Ending(d, f, ok));
            && o.trace != [] && Last(o.trace) == Reopened(Rmdir(Unlink(d, f.unlink1), f.rmdir1), f.reopen)
            && o.open == f.reopen && o.ok == (ok && f.reopen)
  {
  }

  lemma SwapReturns(d: Disk, f: Faults, db: Db)
    requires d.live == Holds(db) && d.copy == Holds(db) && db != NO_RECORDS
    ensures Swap(d, f).trace != []
    ensures Last(Swap(d, f).trace).live == Holds(db) <==> !(f.rename1 && !f.rename2 && !f.rollback)
    ensures Swap(d, f).ok <==> f.rename1 && f.rename2 && f.reopen
  {
    var u := if f.unlinkBak then d.(bak := Absent) else d;
    var r1 := u.(live := Absent, bak := u.live);
    var rb := if f.rollback then r1.(live := r1.bak, bak := Absent) else r1;
    var r2 := r1.(live := r1.copy, copy := Absent);
    var v := if f.unlinkBak2 then r2.(bak := Absent) else r2;
    EndIs([u], u, f, false);
    EndIs([u, r1, rb], rb, f, false);
    EndIs([u, r1, r2, v], v, f, true);
    hide Prefixed, Ending, Last;
  }

  /** On return the live path holds the database, unless the second rename and its rollback both
      failed; success is reported exactly when both renames and the reopening succeeded. */
  lemma ReturnsLive(d: Disk, f: Faults, db: Db)
    requires d.live == Holds(db) && db != NO_RECORDS
    ensures Defragged(d, f).trace != []
    ensures Last(Defragged(d, f).trace).live == Holds(db)
            <==> !(Swaps(d, f) && f.rename1 && !f.rename2 && !f.rollback)
    ensures Defragged(d, f).ok <==> Swaps(d, f) && f.rename1 && f.rename2 && f.reopen
  {
    hide Swap;
    var c := Cleaned(d, f.unlink0, f.rmdir0);
    var e := Last(c);
    if Swaps(d, f) {
      var full := e.(dir := true, copy := d.live);
      SwapReturns(full, f, db);
      var t := [d] + c + [e.(dir := true), e.(dir := true, copy := Partial), full];
      assert Last(t + Swap(full, f).trace) == Last(Swap(full, f).trace);
    }
  }

  lemma SwapLeavesBehind(d: Disk, f: Faults)
    requires d.live.Holds? && d.copy.Holds?
    ensures var o := Swap(d, f);
            && o.trace != [] && (o.open <==> f.reopen)
            && var e := Last(o.trace);
               && e.bak == (if f.rename1 then (if f.rename2 then (if f.unlinkBak2 then Absent else d.live)
                                               else if f.rollback then Absent else d.live)
                            else if f.unlinkBak then Absent else d.bak)
               && (e.copy.Absent? <==> (f.rename1 && f.rename2) || f.unlink1)
               && (e.dir <==> d.dir && !(e.copy.Absent? && f.rmdir1))
               && (f.rename1 && !f.rename2 && !f.rollback ==> e.live == if f.reopen then Holds([]) else Absent)
  {
    var u := if f.unlinkBak then d.(bak := Absent) else d;
    var r1 := u.(live := Absent, bak := u.live);
    var rb := if f.rollback then r1.(live := r1.bak, bak := Absent) else r1;
    var r2 := r1.(live := r1.copy, copy := Absent);
    var v := if f.unlinkBak2 then r2.(bak := Absent) else r2;
    EndIs([u], u, f, false);
    EndIs([u, r1, rb], rb, f, false);
    EndIs([u, r1, r2, v], v, f, true);
    hide Prefixed, Ending, Last;
  }

  /** What else is left: the environment is open unless it was closed for the swap and could not be
      reopened; the old file stays as backup exactly when it was moved there and not moved back or
      removed; the copy is gone when it was swapped in or removed, and then its directory can be; and
      where nothing is left at the live path, opening makes an empty database. */
  lemma LeavesBehind(d: Disk, f: Faults)
    requires d.live.Holds?
    ensures Defragged(d, f).trace != []
    ensures Defragged(d, f).open <==> !Swaps(d, f) || f.reopen
    ensures var e := Last(Defragged(d, f).trace);
            && e.bak == (if !Swaps(d, f) then d.bak
                         else if !f.rename1 then (if f.unlinkBak then Absent else d.bak)
                         else if (f.rename2 && f.unlinkBak2) || (!f.rename2 && f.rollback) then Absent
                         else d.live)
            && (Swaps(d, f) ==>
                  && (e.copy.Absent? <==> (f.rename1 && f.rename2) || f.unlink1)
                  && (e.dir <==> !(e.copy.Absent? && f.rmdir1))
                  && (f.rename1 && !f.rename2 && !f.rollback ==> e.live == if f.reopen then Holds([]) else Absent))
  {
    hide Swap;
    var c := Cleaned(d, f.unlink0, f.rmdir0);
    var e := Last(c);
    if Swaps(d, f) {
      var full := e.(dir := true, copy := d.live);
      SwapLeavesBehind(full, f);
      var t := [d] + c + [e.(dir := true), e.(dir := true, copy := Partial), full];
      assert Last(t + Swap(full, f).trace) == Last(Swap(full, f).trace);
    } else if f.mkdir && !e.dir {
      var left := e.(dir := true, copy := f.leftover);
      CleanedKeeps(left, f.unlink1, f.rmdir1);
      var t := [d] + c + [e.(dir := true), e.(dir := true, copy := Partial), left];
      assert Last(t + Cleaned(left, f.unlink1, f.rmdir1)) == Last(Cleaned(left, f.unlink1, f.rmdir1));
    }
  }

  /** The run gets as far as the swap if and only if the copy directory could be cleared and made and
      the copy was written. */
  lemma SwapsIff(d: Disk, f: Faults)
    ensures Swaps(d, f) <==> && f.mkdir && f.copy
                             && (d.dir ==> f.rmdir0 && (d.copy.Absent? || f.unlink0))
  {
  }

  /** The promise is for a run that starts from a complete live file.  After a crash between the
      two renames only the backup is complete, and opening the backend then creates an empty live
      file.  The database then survives the next run if and only if that run does not get as far as
      removing or replacing the backup. */
  lemma SecondRunLoses(d: Disk, f: Faults, db: Db)
    requires d.live == Holds(NO_RECORDS) && d.bak == Holds(db) && db != NO_RECORDS
    ensures Defragged(d, f).trace != []
    ensures Recoverable(Last(Defragged(d, f).trace), db) <==> !(Swaps(d, f) && (f.unlinkBak || f.rename1))
  {
    hide Swap;
    var c := Cleaned(d, f.unlink0, f.rmdir0);
    var e := Last(c);
    if Swaps(d, f) {
      var full := e.(dir := true, copy := d.live);
      if f.unlinkBak || f.rename1 { SwapLoses(full, f, db); } else { SwapLeaves(full, f, db); }
      var t := [d] + c + [e.(dir := true), e.(dir := true, copy := Partial), full];
      assert Last(t + Swap(full, f).trace) == Last(Swap(full, f).trace);
    } else if f.mkdir && !e.dir {
      var left := e.(dir := true, copy := f.leftover);
      CleanedKeeps(left, f.unlink1, f.rmdir1);
      var t := [d] + c + [e.(dir := true), e.(dir := true, copy := Partial), left];
      assert Last(t + Cleaned(left, f.unlink1, f.rmdir1)) == Last(Cleaned(left, f.unlink1, f.rmdir1));
    }
  }

  lemma SwapLeaves(d: Disk, f: Faults, db: Db)
    requires d.bak == Holds(db) && !f.unlinkBak && !f.rename1
    ensures Swap(d, f).trace != [] && Recoverable(Last(Swap(d, f).trace), db)
  {
    CleanedKeeps(d, f.unlink1, f.rmdir1);
    assert Last([d] + Ending(d, f, false).trace) == Last(Ending(d, f, false).trace);
  }

  lemma SwapLoses(d: Disk, f: Faults, db: Db)
    requires d.live == Holds(NO_RECORDS) && d.copy == Holds(NO_RECORDS) && db != NO_RECORDS
    requires f.unlinkBak || f.rename1
    ensures Swap(d, f).trace != [] && !Recoverable(Last(Swap(d, f).trace), db)
  {
    var u := if f.unlinkBak then d.(bak := Absent) else d;
    var r1 := u.(live := Absent, bak := u.live);
    var rb := if f.rollback then r1.(live := r1.bak, bak := Absent) else r1;
    var r2 := r1.(live := r1.copy, copy := Absent);
    var v := if f.unlinkBak2 then r2.(bak := Absent) else r2;
    if !f.rename1 {
      StaysLost(u, f, false, [u], db);
    } else if !f.rename2 {
      StaysLost(rb, f, false, [u, r1, rb], db);
    } else {
      StaysLost(v, f, true, [u, r1, r2, v], db);
    }
  }

  lemma StaysLost(d: Disk, f: Faults, ok: bool, before: seq<Disk>, db: Db)
    requires !Recoverable(d, db) && db != NO_RECORDS
    ensures var t := before + Ending(d, f, ok).trace; t != [] && !Recoverable(Last(t), db)
  {
  }

  /** Such a start is reached: the state between the renames is one a crash can leave. */
  lemma CrashLeavesBackupOnly(db: Db, f: Faults)
    requires f.unlink0 && f.mkdir && f.copy && f.rename1
    ensures var t := Defragged(Disk(Holds(db), Absent, Absent, false), f).trace;
            exists i :: 0 <= i < |t| && t[i].live == Absent && t[i].bak == Holds(db)
  {
    var d := Disk(Holds(db), Absent, Absent, false);
    var t := Defragged(d, f).trace;
    assert t[7].live == Absent && t[7].bak == Holds(db);
  }

  // -------------------------------------------------------------------- the C routine

  class Backend {
    var disk: Disk
    var open: bool
    /** Every disk state since construction. */
    ghost var trace: seq<Disk>

    constructor (d: Disk)
      requires d.live.Holds?
      ensures disk == d && open && trace == [d]
    {
      disk, open, trace := d, true, [d];
    }

    method CleanDir(unlink: bool, rmdir: bool)
      modifies this`disk, this`trace
      ensures trace == old(trace) + Cleaned(old(disk), unlink, rmdir)
      ensures disk == Last(Cleaned(old(disk), unlink, rmdir))
    {
      if unlink { disk := disk.(copy := Absent); }
      trace := trace + [disk];
      if rmdir && disk.copy.Absent? { disk := disk.(dir := false); }
      trace := trace + [disk];
    }

    method Reopen(ok: bool) returns (rc: bool)
      modifies this
      ensures disk == Reopened(old(disk), ok) && open == ok && rc == ok && trace == old(trace) + [disk]
    {
      if !ok {
        open := false;
        trace := trace + [disk];
        return false;
      }
      if disk.live.Absent? { disk := disk.(live := Holds(NO_RECORDS)); }
      open := true;
      trace := trace + [disk];
      return true;
    }

    /** The calls that end every path once the environment is closed. */
    method CleanAndReopen(f: Faults) returns (rc: bool)
      modifies this
      ensures trace == old(trace) + Ending(old(disk), f, true).trace && trace != [] && disk == Last(trace)
      ensures rc == f.reopen && open == f.reopen
    {
      ghost var t := trace;
      CleanDir(f.unlink1, f.rmdir1);
      ghost var c := Cleaned(old(disk), f.unlink1, f.rmdir1);
      rc := Reopen(f.reopen);
      assert trace == t + (c + [disk]);
    }

    method Run(f: Faults) returns (rc: bool)
      requires open && disk.live.Holds? && trace != [] && Last(trace) == disk
      modifies this
      ensures var o := Defragged(old(disk), f);
              && rc == o.ok && open == o.open
              && trace == old(trace) + o.trace[1..] && trace != [] && disk == Last(trace)
    {
      hide Swap, Unlink, Rmdir;
      ghost var d, t := disk, trace;
      CleanDir(f.unlink0, f.rmdir0);
      ghost var c := Cleaned(d, f.unlink0, f.rmdir0);
      CleanedKeeps(d, f.unlink0, f.rmdir0);
      assert ([d] + c)[1..] == c;
      if !f.mkdir || disk.dir {
        return false;
      }
      disk := disk.(dir := true);
      ghost var m := disk;
      disk := disk.(copy := Partial);
      ghost var half := disk;
      if !f.copy {
        disk := disk.(copy := f.leftover);
        ghost var left := disk;
        trace := trace + [m, half, left];
        CleanDir(f.unlink1, f.rmdir1);
        Tail(t, d, c, [m, half, left], Cleaned(left, f.unlink1, f.rmdir1));
        return false;
      }
      disk := disk.(copy := disk.live);
      ghost var full := disk;
      trace := trace + [m, half, full];
      rc := SwapFiles(f);
      Tail(t, d, c, [m, half, full], Swap(full, f).trace);
    }

    method SwapFiles(f: Faults) returns (rc: bool)
      modifies this
      ensures var o := Swap(old(disk), f);
              rc == o.ok && open == o.open && trace == old(trace) + o.trace && trace != [] && disk == Last(trace)
    {
      hide Cleaned, Reopened;
      ghost var t := trace;
      open := false;
      if f.unlinkBak { disk := disk.(bak := Absent); }
      ghost var u := disk;
      if !f.rename1 {
        trace := trace + [u];
        var _ := CleanAndReopen(f);
        assert (t + [u]) + Ending(u, f, true).trace == t + ([u] + Ending(u, f, true).trace);
        return false;
      }
      disk := disk.(live := Absent, bak := disk.live);
      ghost var r1 := disk;
      if !f.rename2 {
        if f.rollback { disk := disk.(live := disk.bak, bak := Absent); }
        ghost var rb := disk;
        trace := trace + [u, r1, rb];
        var _ := CleanAndReopen(f);
        assert (t + [u, r1, rb]) + Ending(rb, f, true).trace == t + ([u, r1, rb] + Ending(rb, f, true).trace);
        return false;
      }
      disk := disk.(live := disk.copy, copy := Absent);
      ghost var r2 := disk;
      if f.unlinkBak2 { disk := disk.(bak := Absent); }
      ghost var v := disk;
      trace := trace + [u, r1, r2, v];
      rc := CleanAndReopen(f);
      assert (t + [u, r1, r2, v]) + Ending(v, f, true).trace == t + ([u, r1, r2, v] + Ending(v, f, true).trace);
    }
  }

  lemma CleanedKeeps(d: Disk, unlink: bool, rmdir: bool)
    ensures Last(Cleaned(d, unlink, rmdir)).live == d.live && Last(Cleaned(d, unlink, rmdir)).bak == d.bak
  {
  }

  lemma Tail(t: seq<Disk>, d: Disk, c: seq<Disk>, x: seq<Disk>, y: seq<Disk>)
    ensures t + c + x + y == t + ([d] + c + x + y)[1..]
  {
    assert ([d] + c + x + y)[1..] == c + x + y;
  }
}
