/** What becomes of each entry that write_kv_to_lmdb (cmd/cetcd-migrate/main.c) is given, whatever
    fails: an account by positions, and the database and statistics it determines. */
module MigrationBooks {
  import opened Bytes
  import opened KvCodec
  import opened Migration

  /** Positions of entries: put and committed, put into the open transaction, put and lost with a
      failed commit, and never put.  `puts` is all that were put, in order. */
  datatype Books = Books(
    stored: seq<nat>, open: Option<seq<nat>>, lost: seq<nat>, refused: seq<nat>, skipped: seq<nat>, puts: seq<nat>)

  function Pending(b: Books): seq<nat> {
    if b.open.Some? then b.open.value else []
  }

  /** Entry `i` is skipped if it has neither value nor version, refused if there is no transaction
      to put it in or it cannot be put, and put otherwise; a batch of `size` is committed or lost
      as a whole. */
  function Place(b: Books, i: nat, kv: Kv, o: Outcome, size: nat): Books {
    if |kv.value| == 0 && kv.version == 0 then b.(skipped := b.skipped + [i])
    else if b.open.None? && !o.begin then b.(refused := b.refused + [i])
    else if !o.putRev then b.(refused := b.refused + [i], open := Some(Pending(b)))
    else
      var batch, puts := Pending(b) + [i], b.puts + [i];
      if |batch| < size then b.(open := Some(batch), puts := puts)
      else if o.commit then b.(open := None, stored := b.stored + batch, puts := puts)
      else b.(open := None, lost := b.lost + batch, puts := puts)
  }

  function Account(entries: seq<Kv>, os: seq<Outcome>, size: nat): Books
    requires |entries| == |os|
  {
    if entries == [] then Books([], None, [], [], [], [])
    else
      var n := |entries| - 1;
      Place(Account(entries[..n], os[..n], size), n, entries[n], os[n], size)
  }

  /** The last commit. */
  function Close(b: Books, ok: bool): Books {
    if ok then b.(stored := b.stored + Pending(b), open := None)
    else b.(lost := b.lost + Pending(b), open := None)
  }

  // ------------------------------------------------------------- what the books determine

  ghost predicate Within(idx: seq<nat>, n: nat) {
    forall k :: 0 <= k < |idx| ==> idx[k] < n
  }

  /** The entries at these positions on top of `m`: each record under its revision, and the revision
      under the key if that put succeeded. */
  function Puts(m: Store, entries: seq<Kv>, os: seq<Outcome>, idx: seq<nat>): Store
    requires |entries| == |os| && Within(idx, |entries|)
  {
    if idx == [] then m
    else
      var i := idx[|idx| - 1];
      var before := Puts(m, entries, os, idx[..|idx| - 1]);
      var rev := RevKey(entries[i].modRevision);
      var record := before[RevSlot(rev) := Saved(entries[i], os[i].grows)];
      if os[i].putKey then record[KeySlot(entries[i].key) := rev] else record
  }

  /** How many of the entries at these positions are put without their key. */
  function Keyless(os: seq<Outcome>, idx: seq<nat>): nat
    requires Within(idx, |os|)
  {
    if idx == [] then 0
    else Keyless(os, idx[..|idx| - 1]) + if os[idx[|idx| - 1]].putKey then 0 else 1
  }

  function Newest(entries: seq<Kv>, idx: seq<nat>): int
    requires Within(idx, |entries|)
  {
    if idx == [] then 0
    else Max(Newest(entries, idx[..|idx| - 1]), entries[idx[|idx| - 1]].modRevision)
  }

  ghost predicate AllWithin(b: Books, n: nat) {
    Within(b.stored, n) && Within(b.stored + Pending(b), n) && Within(b.puts, n)
  }

  /** A state of the writer agrees with the books. */
  ghost predicate Agrees(m: Store, entries: seq<Kv>, os: seq<Outcome>, skipped: nat, b: Books, st: State)
    requires |entries| == |os| && AllWithin(b, |entries|)
  {
    StoreAgrees(m, entries, os, b, st) && CountsAgree(entries, os, skipped, b, st.stats)
  }

  ghost predicate StoreAgrees(m: Store, entries: seq<Kv>, os: seq<Outcome>, b: Books, st: State)
    requires |entries| == |os| && AllWithin(b, |entries|)
  {
    && st.committed == Puts(m, entries, os, b.stored)
    && (st.txn.Some? <==> b.open.Some?)
    && (st.txn.Some? ==> st.txn.value == Puts(m, entries, os, b.stored + Pending(b)))
    && st.batch == |Pending(b)|
  }

  ghost predicate CountsAgree(entries: seq<Kv>, os: seq<Outcome>, skipped: nat, b: Books, s: Stats)
    requires |entries| == |os| && AllWithin(b, |entries|)
  {
    && s.total == |b.puts|
    && s.latest == Newest(entries, b.puts)
    && s.failed == |b.refused| + |b.lost| + Keyless(os, b.puts)
    && s.skipped == skipped + |b.skipped|
  }

  /** The same, with less than a batch pending. */
  ghost predicate Tracks(m: Store, entries: seq<Kv>, os: seq<Outcome>, size: nat, skipped: nat, b: Books, st: State)
    requires |entries| == |os|
  {
    AllWithin(b, |entries|) && |Pending(b)| < size && Agrees(m, entries, os, skipped, b, st)
  }

  // ------------------------------------------------------------------------- the theorem

  /** Whatever fails: the database holds exactly the entries of the batches that were committed; the
      total counts all that were put, lost ones too; the failures are the refused, the lost and, once
      more, those put without their key. */
  lemma {:induction false} RunAgrees(m: Store, entries: seq<Kv>, os: seq<Outcome>, size: nat, skipped: nat)
    requires |entries| == |os| && size > 0
    ensures Tracks(m, entries, os, size, skipped, Account(entries, os, size), Run(m, entries, os, size, skipped))
    decreases |entries|
  {
    if entries != [] {
      var n := |entries| - 1;
      var init, ios := entries[..n], os[..n];
      RunAgrees(m, init, ios, size, skipped);
      var b, st := Account(init, ios, size), Run(m, init, ios, size, skipped);
      AccountStep(entries, os, size);
      RunStep(m, entries, os, size, skipped);
      hide Account, Run, Tracks, Place, Step;
      Longer(m, init, ios, size, skipped, b, st, entries, os);
      PlaceAgrees(m, entries, os, size, skipped, b, st);
    }
  }

  lemma AccountStep(entries: seq<Kv>, os: seq<Outcome>, size: nat)
    requires |entries| == |os| && entries != []
    ensures var n := |entries| - 1;
            Account(entries, os, size) == Place(Account(entries[..n], os[..n], size), n, entries[n], os[n], size)
  {
  }

  lemma RunStep(m: Store, entries: seq<Kv>, os: seq<Outcome>, size: nat, skipped: nat)
    requires |entries| == |os| && entries != []
    ensures var n := |entries| - 1;
            Run(m, entries, os, size, skipped) == Step(Run(m, entries[..n], os[..n], size, skipped), entries[n], os[n], size)
  {
  }

  /** Further entries do not change what earlier positions say. */
  lemma {:induction false} Longer(
    m: Store, init: seq<Kv>, ios: seq<Outcome>, size: nat, skipped: nat, b: Books, st: State,
    entries: seq<Kv>, os: seq<Outcome>)
    requires |init| == |ios| && |entries| == |os| && init <= entries && ios <= os
    requires Tracks(m, init, ios, size, skipped, b, st)
    ensures Tracks(m, entries, os, size, skipped, b, st)
  {
    hide Puts, Keyless, Newest;
    SamePuts(m, init, ios, entries, os, b.stored);
    SamePuts(m, init, ios, entries, os, b.stored + Pending(b));
    SamePuts(m, init, ios, entries, os, b.puts);
  }

  lemma {:induction false} SamePuts(
    m: Store, init: seq<Kv>, ios: seq<Outcome>, entries: seq<Kv>, os: seq<Outcome>, idx: seq<nat>)
    requires |init| == |ios| && |entries| == |os| && init <= entries && ios <= os && Within(idx, |init|)
    ensures Within(idx, |entries|)
    ensures Puts(m, entries, os, idx) == Puts(m, init, ios, idx)
    ensures Keyless(os, idx) == Keyless(ios, idx) && Newest(entries, idx) == Newest(init, idx)
  {
    hide Saved, RevKey;
    if idx != [] {
      SamePuts(m, init, ios, entries, os, idx[..|idx| - 1]);
    }
  }

  lemma OneMorePut(m: Store, entries: seq<Kv>, os: seq<Outcome>, idx: seq<nat>, i: nat)
    requires |entries| == |os| && Within(idx, |entries|) && i < |entries|
    ensures Within(idx + [i], |entries|)
    ensures var before := PutRev(Puts(m, entries, os, idx), entries[i], Saved(entries[i], os[i].grows));
            Puts(m, entries, os, idx + [i]) == if os[i].putKey then PutKey(before, entries[i]) else before
    ensures Keyless(os, idx + [i]) == Keyless(os, idx) + if os[i].putKey then 0 else 1
    ensures Newest(entries, idx + [i]) == Max(Newest(entries, idx), entries[i].modRevision)
  {
    hide Saved, RevKey;
    assert (idx + [i])[..|idx|] == idx;
  }

  lemma PlaceAgrees(m: Store, entries: seq<Kv>, os: seq<Outcome>, size: nat, skipped: nat, b: Books, st: State)
    requires |entries| == |os| && entries != [] && Tracks(m, entries, os, size, skipped, b, st)
    ensures var n := |entries| - 1;
            Tracks(m, entries, os, size, skipped, Place(b, n, entries[n], os[n], size), Step(st, entries[n], os[n], size))
  {
    var n := |entries| - 1;
    var kv, o := entries[n], os[n];
    hide Place, Step, Tracks;
    if Tombstone(kv) || (b.open.None? && !o.begin) || !o.putRev {
      NotPutAgrees(m, entries, os, size, skipped, b, st, n);
    } else {
      PutAgrees(m, entries, os, size, skipped, b, st, n);
    }
  }

  lemma NotPutAgrees(
    m: Store, entries: seq<Kv>, os: seq<Outcome>, size: nat, skipped: nat, b: Books, st: State, n: nat)
    requires |entries| == |os| && n < |entries| && Tracks(m, entries, os, size, skipped, b, st)
    requires Tombstone(entries[n]) || (b.open.None? && !os[n].begin) || !os[n].putRev
    ensures Tracks(m, entries, os, size, skipped, Place(b, n, entries[n], os[n], size), Step(st, entries[n], os[n], size))
  {
    var b' := Place(b, n, entries[n], os[n], size);
    assert b.stored + [] == b.stored;
    assert b'.stored == b.stored && Pending(b') == Pending(b) && b'.puts == b.puts && b'.lost == b.lost;
    hide Puts, Keyless, Newest, PutRev, PutKey, Saved, Within;
  }

  lemma PutAgrees(
    m: Store, entries: seq<Kv>, os: seq<Outcome>, size: nat, skipped: nat, b: Books, st: State, n: nat)
    requires |entries| == |os| && n < |entries| && Tracks(m, entries, os, size, skipped, b, st)
    requires !Tombstone(entries[n]) && (b.open.Some? || os[n].begin) && os[n].putRev
    ensures Tracks(m, entries, os, size, skipped, Place(b, n, entries[n], os[n], size), Step(st, entries[n], os[n], size))
  {
    var kv, o, all := entries[n], os[n], b.stored + Pending(b);
    var b', st' := Place(b, n, kv, o, size), Step(st, kv, o, size);
    OneMorePut(m, entries, os, all, n);
    PlaceIs(b, n, kv, o, size);
    assert b.open.None? ==> all == b.stored;
    hide Puts, Keyless, Newest, Within, PutPlaced, PutStepped;
    StepIs(st, kv, o, size, Puts(m, entries, os, all), Puts(m, entries, os, all + [n]));
    hide PutRev, PutKey, Saved, Tombstone, Place, Step, Pending, AllWithin, StoreAgrees, CountsAgree;
    PutStores(m, entries, os, size, b, b', st, st', n);
    PutCounts(entries, os, size, skipped, b, b', st, st', n);
  }

  /** `b'` is `b` with entry `i` put, and the batch ended if it is full. */
  ghost predicate PutPlaced(b: Books, b': Books, i: nat, commit: bool, size: nat) {
    var all, full := b.stored + Pending(b), |Pending(b)| + 1 >= size;
    && b'.puts == b.puts + [i] && b'.refused == b.refused && b'.skipped == b.skipped
    && (b'.open.None? <==> full)
    && |Pending(b')| == (if full then 0 else |Pending(b)| + 1)
    && b'.stored == (if full && commit then all + [i] else b.stored)
    && b'.stored + Pending(b') == (if full && !commit then b.stored else all + [i])
    && |b'.lost| == |b.lost| + if full && !commit then |Pending(b)| + 1 else 0
  }

  lemma PlaceIs(b: Books, i: nat, kv: Kv, o: Outcome, size: nat)
    requires !Tombstone(kv) && (b.open.Some? || o.begin) && o.putRev
    ensures PutPlaced(b, Place(b, i, kv, o, size), i, o.commit, size)
  {
    assert b.stored + (Pending(b) + [i]) == b.stored + Pending(b) + [i];
    assert b.stored + [] == b.stored && b.stored + Pending(b) + [i] + [] == b.stored + Pending(b) + [i];
  }

  /** `st'` is `st` with an entry put, which makes `store`, and the batch ended if it is full. */
  ghost predicate PutStepped(st: State, st': State, kv: Kv, o: Outcome, size: nat, store: Store) {
    var full := st.batch + 1 >= size;
    && st'.stats.total == st.stats.total + 1 && st'.stats.skipped == st.stats.skipped
    && st'.stats.latest == Max(st.stats.latest, kv.modRevision)
    && st'.stats.failed == st.stats.failed + (if o.putKey then 0 else 1) + (if full && !o.commit then size else 0)
    && st'.txn == (if full then None else Some(store))
    && st'.batch == (if full then 0 else st.batch + 1)
    && st'.committed == if full && o.commit then store else st.committed
  }

  lemma StepIs(st: State, kv: Kv, o: Outcome, size: nat, txn: Store, store: Store)
    requires !Tombstone(kv) && (st.txn.Some? || o.begin) && o.putRev
    requires txn == if st.txn.Some? then st.txn.value else st.committed
    requires var before := PutRev(txn, kv, Saved(kv, o.grows)); store == if o.putKey then PutKey(before, kv) else before
    ensures PutStepped(st, Step(st, kv, o, size), kv, o, size, store)
  {
    hide PutRev, PutKey, Saved, Tombstone;
  }

  lemma PutStores(
    m: Store, entries: seq<Kv>, os: seq<Outcome>, size: nat, b: Books, b': Books, st: State, st': State, n: nat)
    requires |entries| == |os| && n < |entries| && AllWithin(b, |entries|) && |Pending(b)| < size
    requires Within(b.stored + Pending(b) + [n], |entries|) && StoreAgrees(m, entries, os, b, st)
    requires PutPlaced(b, b', n, os[n].commit, size)
    requires PutStepped(st, st', entries[n], os[n], size, Puts(m, entries, os, b.stored + Pending(b) + [n]))
    ensures AllWithin(b', |entries|) && |Pending(b')| < size && StoreAgrees(m, entries, os, b', st')
  {
    hide Puts, Pending, Max;
  }

  lemma PutCounts(
    entries: seq<Kv>, os: seq<Outcome>, size: nat, skipped: nat, b: Books, b': Books, st: State, st': State, n: nat)
    requires |entries| == |os| && n < |entries| && AllWithin(b, |entries|) && AllWithin(b', |entries|)
    requires |Pending(b)| == st.batch < size && CountsAgree(entries, os, skipped, b, st.stats)
    requires PutPlaced(b, b', n, os[n].commit, size)
    requires exists store :: PutStepped(st, st', entries[n], os[n], size, store)
    ensures CountsAgree(entries, os, skipped, b', st'.stats)
  {
    OneMorePut(map[], entries, os, b.puts, n);
    hide Puts, Keyless, Newest, Pending, Within;
  }

  /** The same at the end. */
  lemma FinishAgrees(m: Store, entries: seq<Kv>, os: seq<Outcome>, last: bool, size: nat, skipped: nat)
    requires |entries| == |os| && size > 0
    ensures var b, st := Close(Account(entries, os, size), last), Finish(Run(m, entries, os, size, skipped), last);
            && AllWithin(b, |entries|)
            && st.committed == Puts(m, entries, os, b.stored)
            && CountsAgree(entries, os, skipped, b, st.stats)
  {
    RunAgrees(m, entries, os, size, skipped);
    var b, st := Account(entries, os, size), Run(m, entries, os, size, skipped);
    hide Account, Run, Puts, Keyless, Newest, Within;
    assert b.stored + [] == b.stored;
    assert st.txn.None? ==> Close(b, last).stored == b.stored && Close(b, last).lost == b.lost + [];
  }

  // -------------------------------------------------------------------- the books balance

  ghost predicate Placed(b: Books, i: nat) {
    i in b.stored || i in Pending(b) || i in b.lost || i in b.refused || i in b.skipped
  }

  /** Every entry has a place, there are as many places as entries, and those put are the stored,
      the pending and the lost. */
  lemma {:induction false} BooksBalance(entries: seq<Kv>, os: seq<Outcome>, size: nat)
    requires |entries| == |os|
    ensures var b := Account(entries, os, size);
            && (forall i :: 0 <= i < |entries| ==> Placed(b, i))
            && |b.stored| + |Pending(b)| + |b.lost| + |b.refused| + |b.skipped| == |entries|
            && |b.puts| == |b.stored| + |Pending(b)| + |b.lost|
  {
    if entries != [] {
      var n := |entries| - 1;
      BooksBalance(entries[..n], os[..n], size);
      AccountStep(entries, os, size);
      var b := Account(entries[..n], os[..n], size);
      hide Account, Placed;
      forall i | 0 <= i < |entries| ensures Placed(Place(b, n, entries[n], os[n], size), i) {
        PlacedStays(b, n, entries[n], os[n], size, i);
      }
    }
  }

  lemma PlacedStays(b: Books, n: nat, kv: Kv, o: Outcome, size: nat, i: nat)
    requires Placed(b, i) || i == n
    ensures Placed(Place(b, n, kv, o, size), i)
  {
  }
}
