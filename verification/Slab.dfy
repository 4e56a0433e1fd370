/** The slab allocator (src/base/slab.c): equal slots cut from blocks, and a free list that is
    threaded through the unused slots. */
module Slab {
  import opened Bytes

  const DEFAULT_PER_BLOCK: nat := 64
  const WORD: nat := 8

  /** Block addresses newest first, and the free slots in list order. */
  datatype State = State(objSize: nat, perBlock: nat, blocks: seq<nat>, free: seq<nat>, live: nat)

  /** cetcd_slab_new; None for objects of size 0. */
  function New(objSize: nat, perBlock: nat): Option<State> {
    if objSize == 0 then None
    else Some(State(AlignUp(if objSize < WORD then WORD else objSize, WORD),
                    if perBlock == 0 then DEFAULT_PER_BLOCK else perBlock, [], [], 0))
  }

  // ------------------------------------------------------------------- operations

  /** The free list after pushing slots 0 to n - 1 of a block in turn. */
  function Pushed(base: nat, size: nat, n: nat, free: seq<nat>): seq<nat>
    decreases n
  {
    if n == 0 then free else [base + (n - 1) * size] + Pushed(base, size, n - 1, free)
  }

  /** slab_grow_: `m` is the address of the new block, None when an allocation fails. */
  function Grow(s: State, m: Option<nat>): Option<State>
    requires s.perBlock > 0
  {
    if s.objSize > U64_MAX / s.perBlock || m.None? then None
    else Some(s.(blocks := [m.value] + s.blocks, free := Pushed(m.value, s.objSize, s.perBlock, s.free)))
  }

  function Take(s: State): (State, Option<nat>)
    requires s.free != []
  {
    (s.(free := s.free[1..], live := s.live + 1), Some(s.free[0]))
  }

  /** cetcd_slab_alloc. */
  function Alloc(s: State, m: Option<nat>): (State, Option<nat>)
    requires s.perBlock > 0
  {
    if s.free != [] then Take(s)
    else
      match Grow(s, m)
      case None => (s, None)
      case Some(g) => Take(g)
  }

  /** cetcd_slab_release. */
  function Release(s: State, p: nat): State {
    s.(free := [p] + s.free, live := if s.live > 0 then s.live - 1 else 0)
  }

  // ---------------------------------------------------------------------- the invariant

  ghost predicate SlotOf(s: State, base: nat, p: nat) {
    exists k :: 0 <= k < s.perBlock && p == base + k * s.objSize
  }

  ghost predicate IsSlot(s: State, p: nat) {
    exists i :: 0 <= i < |s.blocks| && SlotOf(s, s.blocks[i], p)
  }

  function BlockBytes(s: State): nat {
    s.perBlock * s.objSize
  }

  ghost predicate BlocksApart(s: State) {
    forall i, j :: 0 <= i < j < |s.blocks| ==> Apart(s.blocks[i], BlockBytes(s), s.blocks[j], BlockBytes(s))
  }

  /** `live` are the slots handed out and not returned, `peak` the most there ever were. */
  ghost predicate Inv(s: State, live: set<nat>, peak: nat) {
    && s.objSize >= WORD && s.perBlock > 0
    && BlocksApart(s)
    && Distinct(s.free)
    && (forall i :: 0 <= i < |s.free| ==> IsSlot(s, s.free[i]) && s.free[i] !in live)
    && (forall p :: p in live ==> IsSlot(s, p))
    && s.live == |live|
    && |live| + |s.free| == |s.blocks| * s.perBlock
    && |live| <= peak <= |s.blocks| * s.perBlock
    && (s.blocks != [] ==> (|s.blocks| - 1) * s.perBlock < peak)
  }

  /** malloc's promise about a new block. */
  ghost predicate FreshBlock(s: State, m: nat) {
    forall i :: 0 <= i < |s.blocks| ==> Apart(s.blocks[i], BlockBytes(s), m, BlockBytes(s))
  }

  lemma SlotBounds(s: State, base: nat, p: nat)
    requires SlotOf(s, base, p)
    ensures base <= p && p + s.objSize <= base + BlockBytes(s)
  {
    var k :| 0 <= k < s.perBlock && p == base + k * s.objSize;
    MulStep(k, s.perBlock, s.objSize);
  }

  lemma MulStep(a: nat, b: nat, c: nat)
    requires a < b
    ensures a * c + c <= b * c
  {
    assert (a + 1) * c <= b * c;
  }

  lemma SameBlockApart(s: State, base: nat, p: nat, q: nat)
    requires SlotOf(s, base, p) && SlotOf(s, base, q) && p != q
    ensures Apart(p, s.objSize, q, s.objSize)
  {
    var j: nat :| 0 <= j < s.perBlock && p == base + j * s.objSize;
    var k: nat :| 0 <= k < s.perBlock && q == base + k * s.objSize;
    assert j != k;
    if j < k {
      MulStep(j, k, s.objSize);
    } else {
      MulStep(k, j, s.objSize);
    }
  }

  /** Two different slots never overlap. */
  lemma SlotsApart(s: State, p: nat, q: nat)
    requires BlocksApart(s) && IsSlot(s, p) && IsSlot(s, q) && p != q
    ensures Apart(p, s.objSize, q, s.objSize)
  {
    hide SlotOf, BlockBytes;
    var i :| 0 <= i < |s.blocks| && SlotOf(s, s.blocks[i], p);
    var j :| 0 <= j < |s.blocks| && SlotOf(s, s.blocks[j], q);
    SlotBounds(s, s.blocks[i], p);
    SlotBounds(s, s.blocks[j], q);
    if i == j {
      SameBlockApart(s, s.blocks[i], p, q);
    } else if i < j {
      assert Apart(s.blocks[i], BlockBytes(s), s.blocks[j], BlockBytes(s));
    } else {
      assert Apart(s.blocks[j], BlockBytes(s), s.blocks[i], BlockBytes(s));
    }
  }

  /** The pushed slots: all of the block, above one another, and then the old list. */
  lemma {:induction false} PushedIs(base: nat, size: nat, n: nat, free: seq<nat>)
    ensures var r := Pushed(base, size, n, free);
            && |r| == n + |free|
            && (forall i :: 0 <= i < n ==> r[i] == base + (n - 1 - i) * size)
            && r[n..] == free
    decreases n
  {
    if n > 0 {
      PushedIs(base, size, n - 1, free);
      var t := Pushed(base, size, n - 1, free);
      var r := Pushed(base, size, n, free);
      assert r == [base + (n - 1) * size] + t;
      assert r[n..] == t[n - 1..];
    }
  }

  lemma MulStrict(a: nat, b: nat, c: nat)
    requires a < b && c > 0
    ensures a * c < b * c
  {
  }

  lemma PushedDistinct(base: nat, size: nat, n: nat)
    requires size > 0
    ensures Distinct(Pushed(base, size, n, []))
  {
    PushedIs(base, size, n, []);
    var r := Pushed(base, size, n, []);
    forall i, j | 0 <= i < j < |r| ensures r[i] != r[j] {
      MulStrict(n - 1 - j, n - 1 - i, size);
    }
  }

  // ------------------------------------------------------------- every step keeps it

  lemma OldSlotStays(s: State, m: nat, p: nat)
    requires IsSlot(s, p)
    ensures IsSlot(s.(blocks := [m] + s.blocks, free := Pushed(m, s.objSize, s.perBlock, [])), p)
  {
    var g := s.(blocks := [m] + s.blocks, free := Pushed(m, s.objSize, s.perBlock, []));
    var i :| 0 <= i < |s.blocks| && SlotOf(s, s.blocks[i], p);
    assert g.blocks[i + 1] == s.blocks[i];
    assert SlotOf(g, g.blocks[i + 1], p);
  }

  lemma NewSlotFresh(s: State, m: nat, p: nat, q: nat)
    requires s.objSize > 0 && FreshBlock(s, m) && IsSlot(s, p) && SlotOf(s, m, q)
    ensures p != q
  {
    hide SlotOf, BlockBytes;
    var i :| 0 <= i < |s.blocks| && SlotOf(s, s.blocks[i], p);
    SlotBounds(s, s.blocks[i], p);
    SlotBounds(s, m, q);
    assert Apart(s.blocks[i], BlockBytes(s), m, BlockBytes(s));
  }

  lemma {:induction false} GrownBlocksApart(s: State, m: nat)
    requires BlocksApart(s) && FreshBlock(s, m)
    ensures BlocksApart(s.(blocks := [m] + s.blocks, free := Pushed(m, s.objSize, s.perBlock, [])))
  {
    hide Pushed;
    var g := s.(blocks := [m] + s.blocks, free := Pushed(m, s.objSize, s.perBlock, []));
    assert BlockBytes(g) == BlockBytes(s);
    forall i, j | 0 <= i < j < |g.blocks|
      ensures Apart(g.blocks[i], BlockBytes(g), g.blocks[j], BlockBytes(g))
    {
      if i == 0 {
        assert Apart(s.blocks[j - 1], BlockBytes(s), m, BlockBytes(s));
      } else {
        assert Apart(s.blocks[i - 1], BlockBytes(s), s.blocks[j - 1], BlockBytes(s));
      }
    }
  }

  /** A successful growth, which happens only with no free slot left, followed by the slot it
      is for. */
  lemma {:induction false} GrowKeeps(s: State, m: nat, live: set<nat>, peak: nat)
    requires Inv(s, live, peak) && s.free == [] && FreshBlock(s, m)
    ensures var g := s.(blocks := [m] + s.blocks, free := Pushed(m, s.objSize, s.perBlock, []));
            && g.free != [] && g.free[0] !in live
            && Inv(Take(g).0, live + {g.free[0]}, Max(peak, |live| + 1))
  {
    hide SlotOf, Pushed, BlockBytes;
    var g := s.(blocks := [m] + s.blocks, free := Pushed(m, s.objSize, s.perBlock, []));
    PushedIs(m, s.objSize, s.perBlock, []);
    PushedDistinct(m, s.objSize, s.perBlock);
    GrownBlocksApart(s, m);
    forall i | 0 <= i < |g.free| ensures IsSlot(g, g.free[i]) && g.free[i] !in live {
      NewSlot(s, g, m, i);
      if g.free[i] in live {
        NewSlotFresh(s, m, g.free[i], g.free[i]);
      }
    }
    forall p | p in live ensures IsSlot(g, p) {
      OldSlotStays(s, m, p);
    }
    assert |g.blocks| * s.perBlock == |s.blocks| * s.perBlock + s.perBlock;
    TakeKeeps(g, live, peak);
  }

  lemma NewSlot(s: State, g: State, m: nat, i: nat)
    requires g == s.(blocks := [m] + s.blocks, free := Pushed(m, s.objSize, s.perBlock, [])) && i < s.perBlock
    ensures i < |g.free| && SlotOf(s, m, g.free[i]) && IsSlot(g, g.free[i])
  {
    hide Pushed, SlotOf;
    PushedIs(m, s.objSize, s.perBlock, []);
    KthSlot(s, m, s.perBlock - 1 - i);
    KthSlot(g, m, s.perBlock - 1 - i);
    assert g.blocks[0] == m;
  }

  lemma KthSlot(s: State, m: nat, k: nat)
    requires k < s.perBlock
    ensures SlotOf(s, m, m + k * s.objSize)
  {
  }

  /** Taking the first free slot. */
  lemma {:induction false} TakeKeeps(g: State, live: set<nat>, peak: nat)
    requires g.free != [] && g.objSize >= WORD && g.perBlock > 0 && BlocksApart(g) && Distinct(g.free)
    requires forall i :: 0 <= i < |g.free| ==> IsSlot(g, g.free[i]) && g.free[i] !in live
    requires forall p :: p in live ==> IsSlot(g, p)
    requires g.live == |live| && |live| + |g.free| == |g.blocks| * g.perBlock
    requires |live| <= peak <= |g.blocks| * g.perBlock
    requires g.blocks != [] ==> (|g.blocks| - 1) * g.perBlock < Max(peak, |live| + 1)
    ensures Inv(Take(g).0, live + {g.free[0]}, Max(peak, |live| + 1))
  {
    hide SlotOf, IsSlot, BlocksApart;
    var t := Take(g).0;
    var live' := live + {g.free[0]};
    assert |live'| == |live| + 1;
    forall i | 0 <= i < |t.free| ensures IsSlot(t, t.free[i]) && t.free[i] !in live' {
      assert t.free[i] == g.free[i + 1];
      SameSlots(g, t, t.free[i]);
    }
    forall p | p in live' ensures IsSlot(t, p) {
      SameSlots(g, t, p);
    }
    assert BlocksApart(t) by { SameApart(g, t); }
    assert Distinct(t.free);
  }

  lemma SameApart(g: State, t: State)
    requires t.blocks == g.blocks && t.objSize == g.objSize && t.perBlock == g.perBlock && BlocksApart(g)
    ensures BlocksApart(t)
  {
    assert BlockBytes(t) == BlockBytes(g);
  }

  lemma SameSlots(g: State, t: State, p: nat)
    requires t.blocks == g.blocks && t.objSize == g.objSize && t.perBlock == g.perBlock && IsSlot(g, p)
    ensures IsSlot(t, p)
  {
    var i :| 0 <= i < |g.blocks| && SlotOf(g, g.blocks[i], p);
    assert SlotOf(t, t.blocks[i], p);
  }

  /** An allocation, with or without growth: the slot is a new one, and failure changes
      nothing. */
  lemma {:induction false} AllocKeeps(s: State, m: Option<nat>, live: set<nat>, peak: nat)
    requires Inv(s, live, peak) && (m.Some? ==> FreshBlock(s, m.value))
    ensures var (s', p) := Alloc(s, m);
            if p.None? then s' == s
            else p.value !in live && IsSlot(s', p.value)
                 && Inv(s', live + {p.value}, Max(peak, |live| + 1))
  {
    if s.free != [] {
      TakeKeeps(s, live, peak);
      SameSlots(s, Take(s).0, s.free[0]);
    } else if s.objSize <= U64_MAX / s.perBlock && m.Some? {
      GrowKeeps(s, m.value, live, peak);
    }
  }

  /** Returning a live slot. */
  lemma {:induction false} ReleaseKeeps(s: State, p: nat, live: set<nat>, peak: nat)
    requires Inv(s, live, peak) && p in live
    ensures Inv(Release(s, p), live - {p}, peak)
  {
    hide SlotOf;
    var t := Release(s, p);
    forall i | 0 <= i < |t.free| ensures IsSlot(t, t.free[i]) && t.free[i] !in live - {p} {
      if i > 0 { assert t.free[i] == s.free[i - 1]; }
      SameSlots(s, t, t.free[i]);
    }
    forall q | q in live - {p} ensures IsSlot(t, q) {
      SameSlots(s, t, q);
    }
    assert |live - {p}| == |live| - 1;
    assert BlocksApart(t) by { assert BlockBytes(t) == BlockBytes(s); }
    assert Distinct(t.free) by {
      forall i, j | 0 <= i < j < |t.free| ensures t.free[i] != t.free[j] {
        assert t.free[j] == s.free[j - 1];
        if i > 0 { assert t.free[i] == s.free[i - 1]; }
      }
    }
  }

  // ------------------------------------------------------------------- over any run

  datatype Op = Get(m: Option<nat>) | Put(p: nat)
  datatype World = World(slab: State, live: set<nat>, peak: nat)

  function Step(w: World, op: Op): World
    requires w.slab.perBlock > 0
  {
    match op
    case Get(m) =>
      var (s, p) := Alloc(w.slab, m);
      if p.None? then World(s, w.live, w.peak)
      else World(s, w.live + {p.value}, Max(w.peak, |w.live| + 1))
    case Put(p) => World(Release(w.slab, p), w.live - {p}, w.peak)
  }

  /** A disciplined run: only live slots are returned, and malloc keeps its promise. */
  ghost predicate Disciplined(w: World, op: Op) {
    match op
    case Get(m) => m.Some? ==> FreshBlock(w.slab, m.value)
    case Put(p) => p in w.live
  }

  ghost predicate Reaches(start: State, ops: seq<Op>, w: World) {
    if ops == [] then w == World(start, {}, 0)
    else
      exists v :: Reaches(start, ops[..|ops| - 1], v) && v.slab.perBlock > 0
                  && Disciplined(v, ops[|ops| - 1]) && w == Step(v, ops[|ops| - 1])
  }

  /** After any disciplined run: no slot is both free and live, slots never overlap, live and
      free slots make up all blocks, and there are exactly as many blocks as the peak needs, even
      when some growth has failed. */
  lemma {:induction false} RunSafe(objSize: nat, perBlock: nat, ops: seq<Op>, w: World)
    requires objSize > 0 && Reaches(New(objSize, perBlock).value, ops, w)
    ensures Inv(w.slab, w.live, w.peak)
    ensures |w.slab.blocks| == (w.peak + w.slab.perBlock - 1) / w.slab.perBlock
    decreases |ops|
  {
    var start := New(objSize, perBlock).value;
    if ops == [] {
      AlignedAtLeast(objSize);
    } else {
      var init, op := ops[..|ops| - 1], ops[|ops| - 1];
      var v :| Reaches(start, init, v) && v.slab.perBlock > 0 && Disciplined(v, op) && w == Step(v, op);
      RunSafe(objSize, perBlock, init, v);
      hide Inv, Alloc, Release;
      match op {
        case Get(m) => AllocKeeps(v.slab, m, v.live, v.peak);
        case Put(p) => ReleaseKeeps(v.slab, p, v.live, v.peak);
      }
    }
    BlockCount(w.slab, w.live, w.peak);
  }

  /** A call hands out a slot if and only if one is free or a block of slots can be had and its size
      fits 64 bits.  A free slot is handed out without a new block. */
  lemma AllocSucceedsIff(s: State, m: Option<nat>)
    requires s.perBlock > 0
    ensures var (t, p) := Alloc(s, m);
            && (p.Some? <==> s.free != [] || (m.Some? && s.objSize * s.perBlock < TWO_64))
            && (p.None? ==> t == s)
            && (p.Some? ==> t.live == s.live + 1 && t.blocks == if s.free != [] then s.blocks else [m.value] + s.blocks)
  {
    FitsIff(s.objSize, s.perBlock);
    if s.free == [] && m.Some? { PushedIs(m.value, s.objSize, s.perBlock, []); }
  }

  lemma FitsIff(size: nat, n: nat)
    requires n > 0
    ensures size <= U64_MAX / n <==> size * n < TWO_64
  {
    var q := U64_MAX / n;
    assert q * n <= U64_MAX < (q + 1) * n;
    if size <= q { assert size * n <= q * n; } else { assert (q + 1) * n <= size * n; }
  }

  /** The slot returned last is handed out next, and nothing else has changed. */
  lemma ReleasedIsNext(s: State, p: nat, m: Option<nat>)
    requires s.perBlock > 0 && s.live > 0
    ensures Alloc(Release(s, p), m) == (s, Some(p))
  {
    assert ([p] + s.free)[1..] == s.free;
  }

  /** A slot is the least whole number of words that holds an object and a free-list link; a block has
      64 slots unless told otherwise. */
  lemma NewIs(objSize: nat, perBlock: nat)
    requires objSize > 0
    ensures var s := New(objSize, perBlock);
            && s.Some? && s.value.objSize % 8 == 0 && objSize <= s.value.objSize && 8 <= s.value.objSize
            && (forall z: nat :: z % 8 == 0 && objSize <= z && 8 <= z ==> s.value.objSize <= z)
            && s.value.perBlock == (if perBlock == 0 then 64 else perBlock)
            && s.value.blocks == [] && s.value.free == [] && s.value.live == 0
    ensures New(0, perBlock) == None
  {
  }

  /** At 64 bits, a rounded object size holds the object if and only if the rounding does not wrap; if
      it does, the size is 0 and all slots of a block are one. */
  lemma SizeHoldsIff(objSize: u64)
    requires objSize >= WORD
    ensures AlignUp(objSize, WORD) % TWO_64 >= objSize <==> objSize + 7 < TWO_64
    ensures objSize + 7 >= TWO_64 ==> AlignUp(objSize, WORD) % TWO_64 == 0
  {
    assert AlignUp(objSize, WORD) == 8 * ((objSize + 7) / 8);
    if objSize + 7 >= TWO_64 {
      assert (objSize + 7) / 8 == TWO_64 / 8;
    }
  }

  lemma AlignedAtLeast(objSize: nat)
    ensures AlignUp(if objSize < WORD then WORD else objSize, WORD) >= WORD
  {
  }

  lemma BlockCount(s: State, live: set<nat>, peak: nat)
    requires Inv(s, live, peak)
    ensures |s.blocks| == (peak + s.perBlock - 1) / s.perBlock
  {
    CeilFromBounds(peak, s.perBlock, |s.blocks|);
  }

  lemma CeilFromBounds(n: nat, d: nat, k: nat)
    requires d > 0 && n <= k * d && (k > 0 ==> (k - 1) * d < n)
    ensures k == (n + d - 1) / d
  {
    var q, r := (n + d - 1) / d, (n + d - 1) % d;
    assert n + d - 1 == q * d + r;
    if k < q {
      MulStep(k, q, d);
    } else if q < k - 1 {
      MulStep(q, k - 1, d);
    }
  }

  // ------------------------------------------------------------------ the C routines

  class Allocator {
    const objSize: nat
    const perBlock: nat
    var blocks: seq<nat>
    var free: seq<nat>
    var live: nat

    ghost predicate Valid() {
      perBlock > 0
    }

    ghost function View(): State
      reads this
    {
      State(objSize, perBlock, blocks, free, live)
    }

    constructor (objSize: nat, perBlock: nat)
      requires 0 < objSize && objSize + 7 < TWO_64
      ensures Valid() && View() == New(objSize, perBlock).value
    {
      this.objSize := AlignUp(if objSize < WORD then WORD else objSize, WORD);
      this.perBlock := if perBlock == 0 then DEFAULT_PER_BLOCK else perBlock;
      blocks, free, live := [], [], 0;
    }

    method GrowSlab(m: Option<nat>) returns (ok: bool)
      requires Valid()
      modifies this`blocks, this`free
      ensures ok <==> Grow(old(View()), m).Some?
      ensures View() == if ok then Grow(old(View()), m).value else old(View())
    {
      if objSize > U64_MAX / perBlock { return false; }
      if m.None? { return false; }
      blocks := [m.value] + blocks;
      ghost var before := free;
      for i := 0 to perBlock
        invariant free == Pushed(m.value, objSize, i, before)
        invariant blocks == [m.value] + old(blocks)
      {
        free := [m.value + i * objSize] + free;
      }
      return true;
    }

    method AllocSlot(m: Option<nat>) returns (p: Option<nat>)
      requires Valid()
      modifies this`blocks, this`free, this`live
      ensures (View(), p) == Alloc(old(View()), m)
    {
      if free == [] {
        var ok := GrowSlab(m);
        if !ok { return None; }
        PushedIs(m.value, objSize, perBlock, []);
      }
      p := Some(free[0]);
      free := free[1..];
      live := live + 1;
    }

    method ReleaseSlot(p: nat)
      modifies this`free, this`live
      ensures View() == Release(old(View()), p)
    {
      free := [p] + free;
      if live > 0 { live := live - 1; }
    }
  }
}
