/** write_kv_to_lmdb (cmd/cetcd-migrate/main.c): entries go to the new database in batched
    transactions, any of whose steps may fail. */
module Migration {
  import opened Bytes
  import opened KvCodec
  import KeyRange

  // ---------------------------------------------------------------- the revision key

  /** `n` bytes of a number, most significant first. */
  function BigEndian(v: nat, n: nat): (b: seq<byte>)
    ensures |b| == n
    decreases n
  {
    if n == 0 then [] else BigEndian(v / 256, n - 1) + [v % 256]
  }

  /** The revision as sixteen bytes: main revision, then a sub revision of 0. */
  function RevKey(rev: i64): seq<byte> {
    BigEndian(ToU64(rev), 8) + [0, 0, 0, 0, 0, 0, 0, 0]
  }

  /** The byte loop that fills the key, least significant byte first. */
  method MakeRevKey(rev: i64) returns (key: seq<byte>)
    ensures key == RevKey(rev)
  {
    hide BigEndian;
    key := seq(16, _ => 0);
    var v: nat := ToU64(rev);
    ghost var u := v;
    var b := 0;
    assert BigEndian(u, 8) == BigEndian(v, 8) + key[8..8];
    while b < 8
      invariant 0 <= b <= 8 && |key| == 16
      invariant key[8..] == [0, 0, 0, 0, 0, 0, 0, 0]
      invariant BigEndian(u, 8) == BigEndian(v, 8 - b) + key[8 - b..8]
    {
      OneByteMore(key, v, b);
      key := key[7 - b := v % 256];
      v := v / 256;
      b := b + 1;
    }
    NoBytes(v);
    assert key == key[0..8] + key[8..];
  }

  lemma OneByteMore(key: seq<byte>, v: nat, b: nat)
    requires |key| == 16 && b < 8
    ensures var key' := key[7 - b := v % 256];
            && BigEndian(v, 8 - b) + key[8 - b..8] == BigEndian(v / 256, 7 - b) + key'[7 - b..8]
            && key'[8..] == key[8..]
  {
    var key' := key[7 - b := v % 256];
    assert key'[7 - b..8] == [v % 256] + key[8 - b..8];
    assert BigEndian(v / 256, 7 - b) + [v % 256] + key[8 - b..8] == BigEndian(v / 256, 7 - b) + key'[7 - b..8];
  }

  lemma NoBytes(v: nat)
    ensures BigEndian(v, 0) == []
  {
  }

  function Power256(n: nat): nat {
    if n == 0 then 1 else 256 * Power256(n - 1)
  }

  /** Byte order is number order. */
  lemma {:induction false} BigEndianOrder(v: nat, w: nat, n: nat)
    requires v < Power256(n) && w < Power256(n)
    ensures KeyRange.Less(BigEndian(v, n), BigEndian(w, n)) <==> v < w
    ensures BigEndian(v, n) == BigEndian(w, n) <==> v == w
    decreases n
  {
    if n == 0 {
      KeyRange.LessIffCommon([], []);
    } else {
      var a, b := BigEndian(v / 256, n - 1), BigEndian(w / 256, n - 1);
      BigEndianOrder(v / 256, w / 256, n - 1);
      LastByteOrder(a, b, v % 256, w % 256);
    }
  }

  lemma LastByteOrder(a: seq<byte>, b: seq<byte>, x: byte, y: byte)
    requires |a| == |b|
    ensures KeyRange.Less(a + [x], b + [y]) <==> KeyRange.Less(a, b) || (a == b && x < y)
    ensures a + [x] == b + [y] <==> a == b && x == y
  {
    var u, w := a + [x], b + [y];
    assert u[..|a|] == a && w[..|b|] == b && u[|a|] == x && w[|b|] == y;
    KeyRange.LessIffCommon(u, w);
    KeyRange.LessIffCommon(a, b);
    var k := KeyRange.Common(a, b);
    assert forall i :: 0 <= i < |a| ==> u[i] == a[i] && w[i] == b[i];
    if k == |a| {
      assert a == b;
    }
  }

  lemma {:induction false} SameTail(a: seq<byte>, b: seq<byte>, tail: seq<byte>)
    requires |a| == |b|
    ensures KeyRange.Less(a + tail, b + tail) <==> KeyRange.Less(a, b)
    decreases |tail|
  {
    if tail == [] {
      assert a + tail == a && b + tail == b;
    } else {
      var x, rest := tail[0], tail[1..];
      assert a + tail == (a + [x]) + rest && b + tail == (b + [x]) + rest;
      SameTail(a + [x], b + [x], rest);
      LastByteOrder(a, b, x, x);
    }
  }

  /** Keys sort like the revisions read as unsigned numbers: in revision order exactly when
      neither or both are negative. */
  lemma RevKeyOrder(a: i64, b: i64)
    ensures RevKey(a) == RevKey(b) <==> a == b
    ensures KeyRange.Less(RevKey(a), RevKey(b)) <==> ToU64(a) < ToU64(b)
    ensures a != b ==> ((KeyRange.Less(RevKey(a), RevKey(b)) <==> a < b) <==> (a < 0 <==> b < 0))
  {
    assert Power256(4) == TWO_32;
    assert Power256(8) == TWO_64;
    BigEndianOrder(ToU64(a), ToU64(b), 8);
    var tail: seq<byte> := [0, 0, 0, 0, 0, 0, 0, 0];
    SameTail(BigEndian(ToU64(a), 8), BigEndian(ToU64(b), 8), tail);
    assert RevKey(a)[..8] == BigEndian(ToU64(a), 8) && RevKey(b)[..8] == BigEndian(ToU64(b), 8);
  }

  lemma {:induction false} BigEndianValue(v: nat, n: nat)
    requires v < Power256(n)
    ensures Base256(BigEndian(v, n)) == v
    decreases n
  {
    if n > 0 {
      BigEndianValue(v / 256, n - 1);
      assert BigEndian(v, n)[..n - 1] == BigEndian(v / 256, n - 1);
    }
  }

  /** The key says the revision in two's complement in its first eight bytes, and 0 in the others. */
  lemma RevKeySpelled(rev: i64)
    ensures var k := RevKey(rev);
            && |k| == 16
            && Base256(k[..8]) == (if rev < 0 then rev + 0x1_0000_0000_0000_0000 else rev)
            && forall i :: 8 <= i < 16 ==> k[i] == 0
  {
    assert Power256(4) == TWO_32;
    assert Power256(8) == TWO_64;
    BigEndianValue(ToU64(rev), 8);
    assert RevKey(rev)[..8] == BigEndian(ToU64(rev), 8);
  }

  // -------------------------------------------------------------------- the reference

  /** A key of the "rev" bucket or of the "key" bucket. */
  datatype Slot = RevSlot(rev: seq<byte>) | KeySlot(key: seq<byte>)
  type Store = map<Slot, seq<byte>>

  predicate Tombstone(kv: Kv) {
    kv.value == [] && kv.version == 0
  }

  function PutRev(m: Store, kv: Kv, record: seq<byte>): Store {
    m[RevSlot(RevKey(kv.modRevision)) := record]
  }

  function PutKey(m: Store, kv: Kv): Store {
    m[KeySlot(kv.key) := RevKey(kv.modRevision)]
  }

  /** All entries but the tombstones, later ones over earlier ones. */
  function Written(m: Store, entries: seq<Kv>): Store {
    if entries == [] then m
    else
      var n := |entries| - 1;
      var before := Written(m, entries[..n]);
      if Tombstone(entries[n]) then before
      else PutKey(PutRev(before, entries[n], Encoded(entries[n])), entries[n])
  }

  /** The same with the records as the encoder left them. */
  function Stored(m: Store, entries: seq<Kv>, os: seq<Outcome>): Store
    requires |entries| == |os|
    decreases |entries|
  {
    if entries == [] then m
    else
      var n := |entries| - 1;
      var before := Stored(m, entries[..n], os[..n]);
      if Tombstone(entries[n]) then before
      else PutKey(PutRev(before, entries[n], Saved(entries[n], os[n].grows)), entries[n])
  }

  function LatestRev(entries: seq<Kv>): int {
    if entries == [] then 0
    else
      var n := |entries| - 1;
      if Tombstone(entries[n]) then LatestRev(entries[..n])
      else Max(LatestRev(entries[..n]), entries[n].modRevision)
  }

  function Kept(entries: seq<Kv>): nat {
    if entries == [] then 0
    else Kept(entries[..|entries| - 1]) + if Tombstone(entries[|entries| - 1]) then 0 else 1
  }

  // ----------------------------------------------------------------------- the writer

  datatype Stats = Stats(total: nat, latest: int, failed: nat, skipped: nat)

  /** The committed database, the open transaction if any, and the batch so far. */
  datatype State = State(committed: Store, txn: Option<Store>, batch: nat, stats: Stats)

  /** Which calls succeed while one entry is handled, and which growths of the record's buffer. */
  datatype Outcome = Outcome(begin: bool, putRev: bool, putKey: bool, commit: bool, grows: seq<bool>)

  const ALL_OK := Outcome(true, true, true, true, [])

  function Failed(s: Stats, n: nat): Stats {
    s.(failed := s.failed + n)
  }

  /** One round of the loop. */
  function Step(st: State, kv: Kv, o: Outcome, size: nat): State {
    if Tombstone(kv) then st.(stats := st.stats.(skipped := st.stats.skipped + 1))
    else if st.txn.None? && !o.begin then st.(stats := Failed(st.stats, 1))
    else
      var txn := if st.txn.Some? then st.txn.value else st.committed;
      if !o.putRev then st.(txn := Some(txn), stats := Failed(st.stats, 1))
      else
        var withRev := PutRev(txn, kv, Saved(kv, o.grows));
        var txn' := if o.putKey then PutKey(withRev, kv) else withRev;
        var s := if o.putKey then st.stats else Failed(st.stats, 1);
        var s' := s.(total := s.total + 1, latest := Max(s.latest, kv.modRevision));
        if st.batch + 1 >= size then
          if o.commit then State(txn', None, 0, s') else State(st.committed, None, 0, Failed(s', size))
        else State(st.committed, Some(txn'), st.batch + 1, s')
  }

  /** The state after the first entries; the statistics start at 0, but for the skipped count,
      which the caller keeps. */
  function Run(m: Store, entries: seq<Kv>, os: seq<Outcome>, size: nat, skipped: nat): State
    requires |entries| == |os|
    decreases |entries|
  {
    if entries == [] then State(m, None, 0, Stats(0, 0, 0, skipped))
    else
      var n := |entries| - 1;
      Step(Run(m, entries[..n], os[..n], size, skipped), entries[n], os[n], size)
  }

  /** The commit after the loop. */
  function Finish(st: State, ok: bool): State {
    if st.txn.None? then st
    else if ok then st.(committed := st.txn.value, txn := None)
    else st.(txn := None, stats := Failed(st.stats, st.batch))
  }

  /** The body of the loop. */
  method WriteOne(st: State, kv: Kv, o: Outcome, size: nat) returns (st': State)
    requires |kv.key| < TWO_64 && |kv.value| < TWO_64
    ensures st' == Step(st, kv, o, size)
  {
    var store, txn, batch, stats := st.committed, st.txn, st.batch, st.stats;
    if kv.value == [] && kv.version == 0 {
      return st.(stats := stats.(skipped := stats.skipped + 1));
    }
    if txn.None? {
      if !o.begin {
        return st.(stats := stats.(failed := stats.failed + 1));
      }
      txn := Some(store);
    }
    var revKey := MakeRevKey(kv.modRevision);
    var pb := Encode(kv, o.grows);
    if !o.putRev {
      return State(store, txn, batch, stats.(failed := stats.failed + 1));
    }
    txn := Some(txn.value[RevSlot(revKey) := pb]);
    if o.putKey {
      txn := Some(txn.value[KeySlot(kv.key) := revKey]);
    } else {
      stats := stats.(failed := stats.failed + 1);
    }
    stats := stats.(total := stats.total + 1);
    if kv.modRevision > stats.latest {
      stats := stats.(latest := kv.modRevision);
    }
    batch := batch + 1;
    if batch >= size {
      if o.commit {
        store := txn.value;
      } else {
        stats := stats.(failed := stats.failed + size);
      }
      txn, batch := None, 0;
    }
    return State(store, txn, batch, stats);
  }

  method WriteAll(m: Store, entries: seq<Kv>, os: seq<Outcome>, last: bool, skipped: nat, size: nat)
    returns (store: Store, stats: Stats)
    requires |entries| == |os|
    requires forall i :: 0 <= i < |entries| ==> |entries[i].key| < TWO_64 && |entries[i].value| < TWO_64
    ensures var st := Finish(Run(m, entries, os, size, skipped), last);
            store == st.committed && stats == st.stats
  {
    var st := State(m, None, 0, Stats(0, 0, 0, skipped));
    var i := 0;
    while i < |entries|
      invariant i <= |entries|
      invariant st == Run(m, entries[..i], os[..i], size, skipped)
    {
      hide Step;
      assert entries[..i + 1][..i] == entries[..i] && os[..i + 1][..i] == os[..i];
      st := WriteOne(st, entries[i], os[i], size);
      i := i + 1;
    }
    store, stats := st.committed, st.stats;
    var txn, batch := st.txn, st.batch;
    assert entries[..i] == entries && os[..i] == os;
    if txn.Some? {
      if last {
        store := txn.value;
      } else {
        stats := stats.(failed := stats.failed + batch);
      }
    }
  }

  // ------------------------------------------------------------------------- theorems

  /** While nothing has failed: the open transaction, or with none open the database, holds
      exactly the entries so far, the database holds a prefix of them, and the statistics say
      so. */
  ghost predicate Clean(m: Store, entries: seq<Kv>, os: seq<Outcome>, st: State, skipped: nat)
    requires |entries| == |os|
  {
    && (st.txn.Some? ==> st.txn.value == Stored(m, entries, os) && st.batch > 0)
    && (st.txn.None? ==> st.committed == Stored(m, entries, os))
    && (exists k :: 0 <= k <= |entries| && st.committed == Stored(m, entries[..k], os[..k]))
    && st.stats.total == Kept(entries)
    && st.stats.skipped == skipped + |entries| - Kept(entries)
    && st.stats.latest == LatestRev(entries)
  }

  /** Every entry is accounted for, and a failure count of 0 means nothing failed. */
  lemma {:induction false} RunInvariant(m: Store, entries: seq<Kv>, os: seq<Outcome>, size: nat, skipped: nat)
    requires |entries| == |os| && size > 0
    ensures var st := Run(m, entries, os, size, skipped);
            && |entries| <= st.stats.total + (st.stats.skipped - skipped) + st.stats.failed
            && (st.stats.failed == 0 ==> Clean(m, entries, os, st, skipped))
    decreases |entries|
  {
    if entries == [] {
      assert entries[..0] == entries && os[..0] == os;
    } else {
      var n := |entries| - 1;
      var init := entries[..n];
      RunInvariant(m, init, os[..n], size, skipped);
      var st, st' := Run(m, init, os[..n], size, skipped), Run(m, entries, os, size, skipped);
      StepCounts(st, entries[n], os[n], size);
      assert st' == Step(st, entries[n], os[n], size);
      hide Run, Step, Clean;
      if st'.stats.failed == 0 {
        CleanStep(m, entries, os, st, size, skipped);
      }
    }
  }

  lemma OneMore(m: Store, entries: seq<Kv>, os: seq<Outcome>)
    requires entries != [] && |entries| == |os|
    ensures var n := |entries| - 1;
            var kv, before := entries[n], Stored(m, entries[..n], os[..n]);
            if Tombstone(kv) then
              && Stored(m, entries, os) == before && Kept(entries) == Kept(entries[..n])
              && LatestRev(entries) == LatestRev(entries[..n])
            else
              && Stored(m, entries, os) == PutKey(PutRev(before, kv, Saved(kv, os[n].grows)), kv)
              && Kept(entries) == Kept(entries[..n]) + 1 && LatestRev(entries) == Max(LatestRev(entries[..n]), kv.modRevision)
  {
    hide PutRev, PutKey, Saved;
  }

  /** A step accounts for its entry and takes no failure back. */
  lemma StepCounts(st: State, kv: Kv, o: Outcome, size: nat)
    requires size > 0
    ensures var t := Step(st, kv, o, size).stats;
            && t.total + t.skipped + t.failed >= st.stats.total + st.stats.skipped + st.stats.failed + 1
            && t.failed >= st.stats.failed
  {
    hide PutRev, PutKey, Saved, Tombstone;
  }

  lemma {:induction false} CleanStep(m: Store, entries: seq<Kv>, os: seq<Outcome>, st: State, size: nat, skipped: nat)
    requires entries != [] && size > 0 && |entries| == |os|
    requires Clean(m, entries[..|entries| - 1], os[..|entries| - 1], st, skipped) && st.stats.failed == 0
    requires Step(st, entries[|entries| - 1], os[|entries| - 1], size).stats.failed == 0
    ensures Clean(m, entries, os, Step(st, entries[|entries| - 1], os[|entries| - 1], size), skipped)
  {
    hide PutRev, PutKey, Saved, Stored, Kept, LatestRev, Tombstone;
    var n := |entries| - 1;
    var init, ios, st' := entries[..n], os[..n], Step(st, entries[n], os[n], size);
    OneMore(m, entries, os);
    var k :| 0 <= k <= n && st.committed == Stored(m, init[..k], ios[..k]);
    assert init[..k] == entries[..k] && ios[..k] == os[..k];
    assert entries[..|entries|] == entries && os[..|entries|] == os;
    if st'.committed == st.committed {
      assert st'.committed == Stored(m, entries[..k], os[..k]);
    } else {
      assert st'.committed == Stored(m, entries[..|entries|], os[..|entries|]);
    }
  }

  /** The books balance, whatever fails: no entry goes uncounted. */
  lemma NothingUncounted(m: Store, entries: seq<Kv>, os: seq<Outcome>, last: bool, size: nat)
    requires |entries| == |os| && size > 0
    ensures var s := Finish(Run(m, entries, os, size, 0), last).stats;
            |entries| <= s.total + s.skipped + s.failed
  {
    RunInvariant(m, entries, os, size, 0);
  }

  /** A failure count of 0 means every entry but the tombstones is committed, with the record its
      encoder left, and the latest revision is the largest written. */
  lemma NoFailureIsStored(m: Store, entries: seq<Kv>, os: seq<Outcome>, last: bool, size: nat, skipped: nat)
    requires |entries| == |os| && size > 0
    requires Finish(Run(m, entries, os, size, skipped), last).stats.failed == 0
    ensures var st := Finish(Run(m, entries, os, size, skipped), last);
            && st.committed == Stored(m, entries, os)
            && st.stats.total == Kept(entries) && st.stats.latest == LatestRev(entries)
  {
    RunInvariant(m, entries, os, size, skipped);
  }

  /** What each slot holds: either no kept entry wrote it, or the last one that did. */
  lemma {:induction false} SlotStored(m: Store, entries: seq<Kv>, os: seq<Outcome>, rev: i64) returns (i: Option<nat>)
    requires |entries| == |os|
    ensures var s := RevSlot(RevKey(rev));
            match i
            case None =>
              && (forall j :: 0 <= j < |entries| ==> Tombstone(entries[j]) || entries[j].modRevision != rev)
              && (s in Stored(m, entries, os) <==> s in m) && (s in Written(m, entries) <==> s in m)
              && (s in m ==> Stored(m, entries, os)[s] == m[s] == Written(m, entries)[s])
            case Some(k) =>
              && LastKept(entries, k, (kv: Kv) => kv.modRevision == rev)
              && s in Stored(m, entries, os) && Stored(m, entries, os)[s] == Saved(entries[k], os[k].grows)
              && s in Written(m, entries) && Written(m, entries)[s] == Encoded(entries[k])
    decreases |entries|
  {
    hide Encoded, RevKey, Saved;
    if entries == [] { return None; }
    var n := |entries| - 1;
    if !Tombstone(entries[n]) && entries[n].modRevision == rev {
      return Some(n);
    }
    RevKeyOrder(entries[n].modRevision, rev);
    i := SlotStored(m, entries[..n], os[..n], rev);
    if i.Some? { assert entries[..n][i.value] == entries[i.value]; }
  }

  lemma {:induction false} OtherSlots(m: Store, entries: seq<Kv>, os: seq<Outcome>, s: Slot)
    requires |entries| == |os|
    requires s.RevSlot? ==> forall j :: 0 <= j < |entries| ==> s.rev != RevKey(entries[j].modRevision)
    ensures s in Stored(m, entries, os) <==> s in Written(m, entries)
    ensures s in Written(m, entries) ==> Stored(m, entries, os)[s] == Written(m, entries)[s]
    decreases |entries|
  {
    hide Encoded, RevKey, Saved;
    if entries != [] {
      OtherSlots(m, entries[..|entries| - 1], os[..|entries| - 1], s);
    }
  }

  /** The record that stays for each revision is undamaged. */
  ghost predicate LastUndamaged(entries: seq<Kv>, os: seq<Outcome>)
    requires |entries| == |os|
  {
    forall i :: 0 <= i < |entries| && LastOfRev(entries, i) ==> Undamaged(entries[i], os[i].grows)
  }

  ghost predicate LastOfRev(entries: seq<Kv>, i: nat)
    requires i < |entries|
  {
    LastKept(entries, i, (kv: Kv) => kv.modRevision == entries[i].modRevision)
  }

  /** The stored records are those of a complete migration if and only if no growth failed in an
      encoding that stays. */
  lemma StoredExact(m: Store, entries: seq<Kv>, os: seq<Outcome>)
    requires |entries| == |os|
    ensures Stored(m, entries, os) == Written(m, entries) <==> LastUndamaged(entries, os)
  {
    hide Encoded, RevKey, Saved, Stored, Written, Undamaged;
    var a, b := Stored(m, entries, os), Written(m, entries);
    if a == b {
      forall i | 0 <= i < |entries| && LastOfRev(entries, i) ensures Undamaged(entries[i], os[i].grows) {
        var k := SlotStored(m, entries, os, entries[i].modRevision);
        SavedExact(entries[i], os[i].grows);
      }
    }
    if LastUndamaged(entries, os) {
      forall s ensures (s in a <==> s in b) && (s in a ==> a[s] == b[s]) {
        if s.RevSlot? && exists j :: 0 <= j < |entries| && s.rev == RevKey(entries[j].modRevision) {
          var j :| 0 <= j < |entries| && s.rev == RevKey(entries[j].modRevision);
          var k := SlotStored(m, entries, os, entries[j].modRevision);
          if k.Some? {
            assert LastOfRev(entries, k.value);
            SavedExact(entries[k.value], os[k.value].grows);
          }
        } else {
          OtherSlots(m, entries, os, s);
        }
      }
    }
  }

  /** A failure count of 0 is a complete migration if and only if no growth failed in an encoding
      that stays. */
  lemma NoFailureIsComplete(m: Store, entries: seq<Kv>, os: seq<Outcome>, last: bool, size: nat, skipped: nat)
    requires |entries| == |os| && size > 0
    requires Finish(Run(m, entries, os, size, skipped), last).stats.failed == 0
    ensures var st := Finish(Run(m, entries, os, size, skipped), last);
            && (st.committed == Written(m, entries) <==> LastUndamaged(entries, os))
            && st.stats.total == Kept(entries) && st.stats.latest == LatestRev(entries)
  {
    hide Run, Finish, Stored, Written;
    NoFailureIsStored(m, entries, os, last, size, skipped);
    StoredExact(m, entries, os);
  }

  /** Every call succeeds but the first growth of the buffer: no failure is counted, and the
      record is damaged. */
  lemma DamageUncounted(kv: Kv)
    requires !Tombstone(kv)
    ensures var st := Finish(Run(map[], [kv], [Outcome(true, true, true, true, [false])], 500, 0), true);
            && st.stats == Stats(1, Max(0, kv.modRevision), 0, 0)
            && RevSlot(RevKey(kv.modRevision)) in st.committed
            && st.committed[RevSlot(RevKey(kv.modRevision))] != Encoded(kv)
  {
    FirstGrowthFails(kv);
    hide Encoded, Saved, RevKey;
    var o := Outcome(true, true, true, true, [false]);
    assert [kv][..0] == [] && [o][..0] == [];
    assert Run(map[], [kv][..0], [o][..0], 500, 0) == State(map[], None, 0, Stats(0, 0, 0, 0));
  }

  lemma {:induction false} AllOkNeverFails(m: Store, entries: seq<Kv>, os: seq<Outcome>, size: nat, skipped: nat)
    requires |entries| == |os| && forall i :: 0 <= i < |os| ==> os[i] == ALL_OK
    ensures Run(m, entries, os, size, skipped).stats.failed == 0
    decreases |entries|
  {
    if entries != [] {
      AllOkNeverFails(m, entries[..|entries| - 1], os[..|os| - 1], size, skipped);
    }
  }

  /** Without failures the result does not depend on the batch size, every database along the way
      holds a prefix of the entries, and records of at most 2^63 bytes are whole. */
  lemma BatchSizeIrrelevant(m: Store, entries: seq<Kv>, os: seq<Outcome>, size: nat, size': nat, skipped: nat)
    requires |entries| == |os| && forall i :: 0 <= i < |os| ==> os[i] == ALL_OK
    requires size > 0 && size' > 0
    ensures Finish(Run(m, entries, os, size, skipped), true).committed
            == Finish(Run(m, entries, os, size', skipped), true).committed == Stored(m, entries, os)
    ensures exists k :: 0 <= k <= |entries| && Run(m, entries, os, size, skipped).committed == Stored(m, entries[..k], os[..k])
    ensures (forall i :: 0 <= i < |entries| ==> |Encoded(entries[i])| <= 0x8000_0000_0000_0000)
            ==> Stored(m, entries, os) == Written(m, entries)
  {
    AllOkNeverFails(m, entries, os, size, skipped);
    AllOkNeverFails(m, entries, os, size', skipped);
    NoFailureIsStored(m, entries, os, true, size, skipped);
    NoFailureIsStored(m, entries, os, true, size', skipped);
    RunInvariant(m, entries, os, size, skipped);
    hide Run, Stored, Written, Encoded, Undamaged;
    if forall i :: 0 <= i < |entries| ==> |Encoded(entries[i])| <= 0x8000_0000_0000_0000 {
      forall i | 0 <= i < |entries| ensures Undamaged(entries[i], os[i].grows) {
        Undamaged63(entries[i], os[i].grows);
      }
      StoredExact(m, entries, os);
    }
  }

  // ---------------------------------------------------------------------- reading back

  /** `i` is the last entry kept that satisfies `p`. */
  ghost predicate LastKept(entries: seq<Kv>, i: nat, p: Kv -> bool) {
    && i < |entries| && !Tombstone(entries[i]) && p(entries[i])
    && forall k :: i < k < |entries| ==> Tombstone(entries[k]) || !p(entries[k])
  }

  lemma {:induction false} WrittenRev(m: Store, entries: seq<Kv>, i: nat, rev: i64)
    requires LastKept(entries, i, (kv: Kv) => kv.modRevision == rev)
    ensures var s := RevSlot(RevKey(rev)); s in Written(m, entries) && Written(m, entries)[s] == Encoded(entries[i])
    decreases |entries|
  {
    hide Encoded, RevKey;
    var n := |entries| - 1;
    if i < n {
      assert entries[..n][i] == entries[i];
      WrittenRev(m, entries[..n], i, rev);
      RevKeyOrder(entries[n].modRevision, rev);
    }
  }

  lemma {:induction false} WrittenKey(m: Store, entries: seq<Kv>, i: nat, key: seq<byte>)
    requires LastKept(entries, i, (kv: Kv) => kv.key == key)
    ensures var s := KeySlot(key); s in Written(m, entries) && Written(m, entries)[s] == RevKey(entries[i].modRevision)
    decreases |entries|
  {
    hide Encoded, RevKey;
    var n := |entries| - 1;
    if i < n {
      assert entries[..n][i] == entries[i];
      WrittenKey(m, entries[..n], i, key);
    }
  }

  /** Looking a key up: its revision in the "key" bucket, and the entry under that revision. */
  function Lookup(m: Store, key: seq<byte>): Message {
    if KeySlot(key) !in m then BadMessage
    else
      var rev := m[KeySlot(key)];
      if RevSlot(rev) !in m then BadMessage else Decode(m[RevSlot(rev)])
  }

  /** After a complete migration, looking up a key finds the last entry written under the
      revision of the key's last entry. */
  lemma {:induction false} LookupFinds(m: Store, entries: seq<Kv>, key: seq<byte>, i: nat, j: nat)
    requires LastKept(entries, i, (kv: Kv) => kv.key == key)
    requires LastKept(entries, j, (kv: Kv) => kv.modRevision == entries[i].modRevision)
    requires entries[j].key != [] && |Encoded(entries[j])| < TWO_64
    ensures Lookup(Written(m, entries), key) == Decoded(entries[j])
    ensures Lookup(Written(m, entries), key) == Decoded(entries[i]) <==> entries[i] == entries[j]
  {
    hide Written, Encoded, RevKey, Decode;
    WrittenKey(m, entries, i, key);
    WrittenRev(m, entries, j, entries[i].modRevision);
    RoundTrip(entries[j]);
  }

  /** When no two kept entries share a revision, looking up a key finds its last entry. */
  lemma {:induction false} DistinctRevisionsLookup(m: Store, entries: seq<Kv>, key: seq<byte>, i: nat)
    requires LastKept(entries, i, (kv: Kv) => kv.key == key)
    requires forall a, b :: 0 <= a < b < |entries| && !Tombstone(entries[a]) && !Tombstone(entries[b])
                            ==> entries[a].modRevision != entries[b].modRevision
    requires key != [] && |Encoded(entries[i])| < TWO_64
    ensures Lookup(Written(m, entries), key) == Decoded(entries[i])
  {
    hide Written, Encoded, Decode, Lookup;
    var rev := entries[i].modRevision;
    assert LastKept(entries, i, (kv: Kv) => kv.modRevision == rev);
    LookupFinds(m, entries, key, i, i);
  }

  /** Two keys changed in one etcd transaction share their main revision: the writer keeps
      no sub revision, so looking up the first finds the second. */
  lemma SharedRevisionExample()
    ensures var a, b := Kv([97], 5, 1, [1], 5, 0), Kv([98], 5, 1, [2], 5, 0);
            Lookup(Written(map[], [a, b]), [97]) == Decoded(b)
  {
    hide Encoded, RevKey, Decode, Lookup;
    var a, b := Kv([97], 5, 1, [1], 5, 0), Kv([98], 5, 1, [2], 5, 0);
    var entries := [a, b];
    assert LastKept(entries, 0, (kv: Kv) => kv.key == [97]);
    assert LastKept(entries, 1, (kv: Kv) => kv.modRevision == entries[0].modRevision);
    SmallMessage(b);
    LookupFinds(map[], entries, [97], 0, 1);
  }

  /** Six tags, five numbers of at most ten bytes, a length of at most ten, and the bytes. */
  lemma SmallMessage(kv: Kv)
    requires |kv.key| < 1000 && |kv.value| < 1000
    ensures |Encoded(kv)| < TWO_64
  {
    var items := ItemsOf(kv);
    forall i | 0 <= i < |items| ensures |EmitItem(items[i])| <= 1030 {
      assert Power128(5) == 0x8_0000_0000;
      assert Power128(10) == 0x40_0000_0000_0000_0000;
      VarintShort(Tag(items[i]), 10);
      match items[i] {
        case Number(_, v) => VarintShort(ToU64(v), 10);
        case Key(b) => VarintShort(|b|, 10);
        case Value(b) => VarintShort(|b|, 10);
        case OtherNumber(_, v) =>
        case OtherBytes(_, b) =>
      }
    }
    EmitBound(items);
  }

  lemma {:induction false} EmitBound(items: seq<Item>)
    requires forall i :: 0 <= i < |items| ==> |EmitItem(items[i])| <= 1030
    ensures |Emit(items)| <= 1030 * |items|
  {
    if items != [] {
      assert forall i :: 0 <= i < |items| - 1 ==> items[1..][i] == items[i + 1];
      EmitBound(items[1..]);
    }
  }
}
