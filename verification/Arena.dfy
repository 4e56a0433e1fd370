/** The arena allocator (src/base/arena.c): blocks with a bump offset, a second list for large
    requests, and running totals. */
module Arena {
  import opened Bytes

  const MAX_INLINE: nat := 2048
  const DEFAULT_BLOCK: nat := 4096

  /** A block of `cap` bytes at address `base`, the first `used` of them handed out. */
  datatype Block = Block(base: nat, cap: nat, used: nat)

  /** The allocator: the block lists newest first, and the three counters. */
  datatype State = State(head: seq<Block>, huge: seq<Block>, blockSize: nat, claimed: nat, used: nat, count: nat)

  function New(blockSize: nat): State {
    State([], [], if blockSize == 0 then DEFAULT_BLOCK else blockSize, 0, 0, 0)
  }

  // ------------------------------------------------------------------- alignment

  ghost predicate Aligned(x: nat, a: nat) {
    exists k: nat :: x == k * a
  }

  ghost predicate IsPower(p: nat) {
    exists k: nat :: p == PowerOfTwo(k)
  }

  /** `p` is the least power of two that is at least `align`. */
  ghost predicate LeastPower(p: nat, align: nat) {
    IsPower(p) && align <= p && forall q: nat :: IsPower(q) && align <= q ==> p <= q
  }

  /** Doubling from `p` until `align` is reached. */
  function DoubleTo(p: nat, align: nat): nat
    requires p > 0
    decreases align - p
  {
    if p < align then DoubleTo(2 * p, align) else p
  }

  function RealAlign(align: nat): (p: nat)
    ensures p > 0
  {
    DoublePositive(1, align);
    DoubleTo(1, if align == 0 then 1 else align)
  }

  lemma {:induction false} DoublePositive(p: nat, align: nat)
    requires p > 0
    ensures DoubleTo(p, align) > 0 && DoubleTo(p, if align == 0 then 1 else align) > 0
    decreases align - p
  {
    if p < align {
      DoublePositive(2 * p, align);
    }
  }

  lemma {:induction false} PowerOrder(j: nat, k: nat)
    ensures j < k ==> 2 * PowerOfTwo(j) <= PowerOfTwo(k)
    decreases k
  {
    if j + 1 < k {
      PowerOrder(j, k - 1);
    }
  }

  lemma {:induction false} DoubleIsLeast(k: nat, align: nat)
    requires align > 0 && (k == 0 || PowerOfTwo(k - 1) < align)
    ensures LeastPower(DoubleTo(PowerOfTwo(k), align), align)
    decreases align - PowerOfTwo(k)
  {
    var p := PowerOfTwo(k);
    if p < align {
      assert PowerOfTwo(k + 1) == 2 * p;
      DoubleIsLeast(k + 1, align);
    } else {
      forall q: nat | IsPower(q) && align <= q ensures p <= q {
        var j: nat :| q == PowerOfTwo(j);
        if j < k {
          PowerOrder(j, k - 1);
        } else {
          PowerOrder(k, j);
        }
      }
    }
  }

  lemma RealAlignIsLeast(align: nat)
    ensures LeastPower(RealAlign(align), if align == 0 then 1 else align)
  {
    assert PowerOfTwo(0) == 1;
    DoubleIsLeast(0, if align == 0 then 1 else align);
  }

  /** (x + (a - 1)) & ~(a - 1) for a power of two `a`. */
  lemma AlignUpBounds(x: nat, a: nat)
    requires a > 0
    ensures Aligned(AlignUp(x, a), a) && x <= AlignUp(x, a) < x + a
  {
    var y := x + (a - 1);
    var k := y / a;
    assert y == k * a + y % a;
    assert AlignUp(x, a) == k * a;
  }

  // ------------------------------------------------------------------- operations

  function Cons(b: Block, bs: seq<Block>): seq<Block> {
    [b] + bs
  }

  /** The tail of cetcd_arena_alloc_aligned: the head block exists; `m` is the address that
      malloc would give, if any. */
  function AllocInline(a: State, n: nat, align: nat, m: Option<nat>): (State, Option<nat>)
    requires a.head != [] && align > 0
  {
    var b := a.head[0];
    var base := b.base + b.used;
    var aligned := AlignUp(base, align);
    if b.used + (aligned - base) + n > b.cap then
      if m.None? then (a, None)
      else
        var cap := if a.blockSize < n + align then n + align else a.blockSize;
        var at := AlignUp(m.value, align);
        AlignUpBounds(m.value, align);
        var used := at - m.value + n;
        (a.(head := Cons(Block(m.value, cap, used), a.head),
            claimed := a.claimed + cap, used := a.used + used, count := a.count + 1),
         Some(at))
    else
      AlignUpBounds(base, align);
      var used := aligned - base + n;
      (a.(head := Cons(b.(used := b.used + used), a.head[1..]), used := a.used + used), Some(aligned))
  }

  /** cetcd_arena_alloc_aligned; `m1` and `m2` are what the first and a second malloc of the
      call return. */
  function Alloc(a: State, size: nat, align: nat, m1: Option<nat>, m2: Option<nat>): (State, Option<nat>) {
    var ra := RealAlign(align);
    var n := if size == 0 then 1 else size;
    if n > MAX_INLINE || n > a.blockSize then
      if m1.None? then (a, None)
      else
        var at := AlignUp(m1.value, ra);
        AlignUpBounds(m1.value, ra);
        var blk := Block(m1.value, n + ra, at - m1.value + n);
        (a.(huge := Cons(blk, a.huge), claimed := a.claimed + blk.cap, used := a.used + blk.used, count := a.count + 1),
         Some(at))
    else if a.head == [] then
      if m1.None? then (a, None) else AllocInline(FirstBlock(a, m1.value), n, ra, m2)
    else AllocInline(a, n, ra, m1)
  }

  function FirstBlock(a: State, m: nat): State {
    a.(head := [Block(m, a.blockSize, 0)], claimed := a.claimed + a.blockSize, count := a.count + 1)
  }

  /** cetcd_arena_reset keeps the newest block, empty. */
  function Reset(a: State): State {
    a.(head := if a.head == [] then [] else [a.head[0].(used := 0)], huge := [],
       claimed := if a.head == [] then 0 else a.head[0].cap, used := 0, count := if a.head == [] then 0 else 1)
  }

  /** At 64 bits, the loop that doubles the alignment from 1 on reaches what was asked for if and only
      if that is at most 2^63; past it the doubled value is 0 for ever. */
  lemma RoundEndsIff(align: u64)
    ensures (exists k: nat :: PowerOfTwo(k) % TWO_64 >= align) <==> align <= 0x8000_0000_0000_0000
  {
    if align <= 0x8000_0000_0000_0000 {
      PowerTop();
      assert PowerOfTwo(63) % TWO_64 >= align;
    } else {
      forall k: nat ensures PowerOfTwo(k) % TWO_64 < align {
        DoubledAt64(k);
      }
    }
  }

  lemma PowerTop()
    ensures PowerOfTwo(63) == 0x8000_0000_0000_0000 && PowerOfTwo(64) == TWO_64
  {
    assert PowerOfTwo(8) == 256;
    assert PowerOfTwo(16) == 0x1_0000;
    assert PowerOfTwo(24) == 0x100_0000;
    assert PowerOfTwo(32) == TWO_32;
    assert PowerOfTwo(40) == 0x100_0000_0000;
    assert PowerOfTwo(48) == 0x1_0000_0000_0000;
    assert PowerOfTwo(56) == 0x100_0000_0000_0000;
  }

  lemma {:induction false} DoubledAt64(k: nat)
    ensures PowerOfTwo(k) % TWO_64 <= 0x8000_0000_0000_0000
    ensures k >= 64 ==> PowerOfTwo(k) % TWO_64 == 0
  {
    if k >= 64 {
      PowerTop();
      if k > 64 { DoubledAt64(k - 1); }
    } else {
      PowerTop();
      PowerOrder(k, 63);
    }
  }

  /** At 64 bits, the capacity asked for a large region holds it wherever the block comes to lie if and
      only if size and alignment do not wrap together. */
  lemma HugeFitsIff(n: nat, align: nat)
    requires 0 < n < TWO_64 && 0 < align < TWO_64
    ensures (forall m: nat :: AlignUp(m, align) - m + n <= (n + align) % TWO_64) <==> n + align < TWO_64
  {
    if n + align < TWO_64 {
      forall m: nat ensures AlignUp(m, align) - m + n <= (n + align) % TWO_64 {
        AlignUpBounds(m, align);
      }
    } else {
      assert AlignUp(0, align) - 0 + n > (n + align) % TWO_64;
    }
  }

  // -------------------------------------------------------------------- the invariant

  function SumCap(bs: seq<Block>): nat {
    if bs == [] then 0 else bs[0].cap + SumCap(bs[1..])
  }

  function SumUsed(bs: seq<Block>): nat {
    if bs == [] then 0 else bs[0].used + SumUsed(bs[1..])
  }

  /** The counters are the exact sums over both lists. */
  ghost predicate Totals(a: State) {
    && a.claimed == SumCap(a.head) + SumCap(a.huge)
    && a.used == SumUsed(a.head) + SumUsed(a.huge)
    && a.count == |a.head| + |a.huge|
  }

  /** A region handed out: address, size and alignment. */
  datatype Region = Region(addr: nat, size: nat, align: nat)

  ghost predicate Inside(b: Block, r: Region) {
    b.base <= r.addr && r.addr + r.size <= b.base + b.used
  }

  ghost predicate BlocksApart(bs: seq<Block>) {
    forall i, j :: 0 <= i < j < |bs| ==> Apart(bs[i].base, bs[i].cap, bs[j].base, bs[j].cap)
  }

  /** Every block within its capacity, blocks and regions disjoint, and each region aligned and
      inside the used part of a block. */
  ghost predicate Safe(bs: seq<Block>, live: seq<Region>) {
    && (forall i :: 0 <= i < |bs| ==> bs[i].used <= bs[i].cap)
    && BlocksApart(bs)
    && (forall i :: 0 <= i < |live| ==> live[i].align > 0 && Aligned(live[i].addr, live[i].align) && live[i].size > 0)
    && (forall i :: 0 <= i < |live| ==> exists k :: 0 <= k < |bs| && Inside(bs[k], live[i]))
    && (forall i, j :: 0 <= i < j < |live| ==> Apart(live[i].addr, live[i].size, live[j].addr, live[j].size))
  }

  function Blocks(a: State): seq<Block> {
    a.head + a.huge
  }

  ghost predicate Inv(a: State, live: seq<Region>) {
    a.blockSize > 0 && Totals(a) && Safe(Blocks(a), live)
  }

  /** malloc's promise: the new block overlaps none that is still allocated. */
  ghost predicate FreshBlock(bs: seq<Block>, m: nat, cap: nat) {
    forall i :: 0 <= i < |bs| ==> Apart(bs[i].base, bs[i].cap, m, cap)
  }

  lemma InsertBlock(bs: seq<Block>, k: nat, m: nat, cap: nat, live: seq<Region>)
    requires k <= |bs| && Safe(bs, live) && FreshBlock(bs, m, cap)
    ensures Safe(bs[..k] + [Block(m, cap, 0)] + bs[k..], live)
  {
    var nb := Block(m, cap, 0);
    var bs' := bs[..k] + [nb] + bs[k..];
    assert forall i :: 0 <= i < |bs'| ==> bs'[i] == if i < k then bs[i] else if i == k then nb else bs[i - 1];
    forall i | 0 <= i < |live| ensures exists j :: 0 <= j < |bs'| && Inside(bs'[j], live[i]) {
      var j :| 0 <= j < |bs| && Inside(bs[j], live[i]);
      var x := if j < k then j else j + 1;
      assert bs'[x] == bs[j];
      assert Inside(bs'[x], live[i]);
    }
    assert forall i :: 0 <= i < |bs'| ==> bs'[i].used <= bs'[i].cap;
    forall i, j | 0 <= i < j < |bs'| ensures Apart(bs'[i].base, bs'[i].cap, bs'[j].base, bs'[j].cap) {
      InsertApart(bs, k, m, cap, live, i, j);
    }
  }

  lemma InsertApart(bs: seq<Block>, k: nat, m: nat, cap: nat, live: seq<Region>, i: nat, j: nat)
    requires k <= |bs| && Safe(bs, live) && FreshBlock(bs, m, cap) && i < j <= |bs|
    ensures var bs' := bs[..k] + [Block(m, cap, 0)] + bs[k..];
            Apart(bs'[i].base, bs'[i].cap, bs'[j].base, bs'[j].cap)
  {
    var i', j' := if i < k then i else i - 1, if j < k then j else j - 1;
    var bs' := bs[..k] + [Block(m, cap, 0)] + bs[k..];
    assert i != k ==> bs'[i] == bs[i'];
    assert j != k ==> bs'[j] == bs[j'];
    if i == k {
      assert Apart(bs[j'].base, bs[j'].cap, m, cap);
    } else if j == k {
      assert Apart(bs[i'].base, bs[i'].cap, m, cap);
    } else {
      assert Apart(bs[i'].base, bs[i'].cap, bs[j'].base, bs[j'].cap);
    }
  }

  /** A new block with the first bytes handed out. */
  lemma InsertAndBump(bs: seq<Block>, k: nat, m: nat, cap: nat, n: nat, align: nat, live: seq<Region>)
    requires k <= |bs| && Safe(bs, live) && FreshBlock(bs, m, cap) && n > 0 && align > 0 && n + align <= cap
    ensures m <= AlignUp(m, align)
    ensures Safe(bs[..k] + [Block(m, cap, AlignUp(m, align) - m + n)] + bs[k..],
                 live + [Region(AlignUp(m, align), n, align)])
  {
    hide Safe, AlignUp;
    AlignUpBounds(m, align);
    InsertBlock(bs, k, m, cap, live);
    var bs1 := bs[..k] + [Block(m, cap, 0)] + bs[k..];
    var pad := AlignUp(m, align) - m;
    BumpBlock(bs1, k, pad, n, align, live);
    assert bs1[k := Block(m, cap, pad + n)] == bs[..k] + [Block(m, cap, pad + n)] + bs[k..];
  }

  /** Handing out bytes above the used part of block `k`. */
  lemma BumpBlock(bs: seq<Block>, k: nat, pad: nat, n: nat, align: nat, live: seq<Region>)
    requires k < |bs| && Safe(bs, live) && bs[k].used + pad + n <= bs[k].cap && n > 0
    requires align > 0 && Aligned(bs[k].base + bs[k].used + pad, align)
    ensures Safe(bs[k := bs[k].(used := bs[k].used + pad + n)],
                 live + [Region(bs[k].base + bs[k].used + pad, n, align)])
  {
    var b := bs[k];
    var r := Region(b.base + b.used + pad, n, align);
    var bs' := bs[k := b.(used := b.used + pad + n)];
    var live' := live + [r];
    assert Inside(bs'[k], r);
    forall i | 0 <= i < |live| ensures Apart(live[i].addr, live[i].size, r.addr, r.size) {
      var j :| 0 <= j < |bs| && Inside(bs[j], live[i]);
      if j < k {
        assert Apart(bs[j].base, bs[j].cap, b.base, b.cap);
      } else if j > k {
        assert Apart(b.base, b.cap, bs[j].base, bs[j].cap);
      }
    }
    forall i | 0 <= i < |live'| ensures exists j :: 0 <= j < |bs'| && Inside(bs'[j], live'[i]) {
      if i < |live| {
        var j :| 0 <= j < |bs| && Inside(bs[j], live[i]);
        assert Inside(bs'[j], live'[i]);
      }
    }
    forall i, j | 0 <= i < j < |bs'| ensures Apart(bs'[i].base, bs'[i].cap, bs'[j].base, bs'[j].cap) {
      assert Apart(bs[i].base, bs[i].cap, bs[j].base, bs[j].cap);
    }
  }

  // ------------------------------------------------------------- every step keeps it

  /** What malloc promises about the blocks a call may get. */
  ghost predicate MallocSound(a: State, size: nat, align: nat, m1: Option<nat>, m2: Option<nat>) {
    var ra := RealAlign(align);
    var n := if size == 0 then 1 else size;
    var cap := if a.blockSize < n + ra then n + ra else a.blockSize;
    if n > MAX_INLINE || n > a.blockSize then m1.Some? ==> FreshBlock(Blocks(a), m1.value, n + ra)
    else if a.head == [] then
      m1.Some? ==>
        && FreshBlock(Blocks(a), m1.value, a.blockSize)
        && (m2.Some? ==> FreshBlock(Blocks(FirstBlock(a, m1.value)), m2.value, cap))
    else m1.Some? ==> FreshBlock(Blocks(a), m1.value, cap)
  }

  /** The regions after a call: one more when it succeeds. */
  function LiveAfter(a: State, size: nat, align: nat, m1: Option<nat>, m2: Option<nat>, live: seq<Region>): seq<Region> {
    match Alloc(a, size, align, m1, m2).1
    case None => live
    case Some(p) => live + [Region(p, if size == 0 then 1 else size, RealAlign(align))]
  }

  lemma {:induction false} InlineKeeps(a: State, n: nat, align: nat, m: Option<nat>, live: seq<Region>)
    requires Inv(a, live) && a.head != [] && n > 0 && align > 0
    requires m.Some? ==> FreshBlock(Blocks(a), m.value, if a.blockSize < n + align then n + align else a.blockSize)
    ensures var (a', p) := AllocInline(a, n, align, m);
            && Inv(a', if p.None? then live else live + [Region(p.value, n, align)])
            && (p.None? ==> a' == a)
  {
    hide Safe, AlignUp;
    var bs, b := Blocks(a), a.head[0];
    var base := b.base + b.used;
    var aligned := AlignUp(base, align);
    AlignUpBounds(base, align);
    var (a', p) := AllocInline(a, n, align, m);
    if b.used + (aligned - base) + n > b.cap {
      if m.Some? {
        var cap := if a.blockSize < n + align then n + align else a.blockSize;
        InsertAndBump(bs, 0, m.value, cap, n, align, live);
        assert Blocks(a') == bs[..0] + [a'.head[0]] + bs[0..];
        assert a'.head[1..] == a.head;
      }
    } else {
      BumpBlock(bs, 0, aligned - base, n, align, live);
      assert Blocks(a') == bs[0 := a'.head[0]];
      assert a'.head[1..] == a.head[1..];
    }
  }

  /** Every allocation keeps the invariant and adds its region to the live ones. */
  lemma {:induction false} AllocKeeps(a: State, size: nat, align: nat, m1: Option<nat>, m2: Option<nat>, live: seq<Region>)
    requires Inv(a, live) && MallocSound(a, size, align, m1, m2)
    ensures Inv(Alloc(a, size, align, m1, m2).0, LiveAfter(a, size, align, m1, m2, live))
  {
    hide AlignUp, RealAlign, Safe;
    var ra := RealAlign(align);
    var n := if size == 0 then 1 else size;
    if n > MAX_INLINE || n > a.blockSize {
      if m1.Some? {
        HugeKeeps(a, n, ra, m1.value, live);
      }
    } else if a.head == [] {
      if m1.Some? {
        FirstKeeps(a, m1.value, live);
        InlineKeeps(FirstBlock(a, m1.value), n, ra, m2, live);
      }
    } else {
      InlineKeeps(a, n, ra, m1, live);
    }
  }

  lemma {:induction false} FirstKeeps(a: State, m: nat, live: seq<Region>)
    requires Inv(a, live) && a.head == [] && FreshBlock(Blocks(a), m, a.blockSize)
    ensures Inv(FirstBlock(a, m), live)
  {
    hide Safe, FreshBlock;
    var bs := Blocks(a);
    InsertBlock(bs, 0, m, a.blockSize, live);
    assert Blocks(FirstBlock(a, m)) == bs[..0] + [Block(m, a.blockSize, 0)] + bs[0..];
    assert FirstBlock(a, m).head[1..] == [];
  }

  lemma {:induction false} HugeKeeps(a: State, n: nat, ra: nat, m: nat, live: seq<Region>)
    requires Inv(a, live) && n > 0 && ra > 0 && FreshBlock(Blocks(a), m, n + ra)
    ensures m <= AlignUp(m, ra)
    ensures var blk := Block(m, n + ra, AlignUp(m, ra) - m + n);
            var a' := a.(huge := Cons(blk, a.huge), claimed := a.claimed + blk.cap, used := a.used + blk.used, count := a.count + 1);
            Inv(a', live + [Region(AlignUp(m, ra), n, ra)])
  {
    hide Safe, AlignUp;
    var bs, k := Blocks(a), |a.head|;
    InsertAndBump(bs, k, m, n + ra, n, ra, live);
    var blk := Block(m, n + ra, AlignUp(m, ra) - m + n);
    assert a.head + Cons(blk, a.huge) == bs[..k] + [blk] + bs[k..];
    assert Cons(blk, a.huge)[1..] == a.huge;
  }

  /** A reset starts over with no live region. */
  lemma {:induction false} ResetKeeps(a: State, live: seq<Region>)
    requires Inv(a, live)
    ensures Inv(Reset(a), [])
  {
    var r := Reset(a);
    if a.head != [] {
      assert r.head[1..] == [];
    }
  }

  // -------------------------------------------------------- when a call succeeds, and where

  /** Behind the used part of the block there is an aligned place for `n` bytes. */
  ghost predicate HasRoom(b: Block, n: nat, align: nat) {
    exists x: nat :: Aligned(x, align) && b.base + b.used <= x && x + n <= b.base + b.cap
  }

  /** `p` is the first aligned address at or after `from`. */
  ghost predicate FirstAligned(p: nat, from: nat, align: nat) {
    Aligned(p, align) && from <= p && forall x: nat :: Aligned(x, align) && from <= x ==> p <= x
  }

  lemma AlignUpIsFirst(from: nat, align: nat)
    requires align > 0
    ensures FirstAligned(AlignUp(from, align), from, align)
  {
    AlignUpBounds(from, align);
    var p := AlignUp(from, align);
    forall x: nat | Aligned(x, align) && from <= x ensures p <= x {
      var j: nat, k: nat :| p == j * align && x == k * align;
      MultiplesApart(j, k, align, from);
    }
  }

  lemma MultiplesApart(j: nat, k: nat, align: nat, from: nat)
    requires align > 0 && j * align < from + align && from <= k * align
    ensures j * align <= k * align
  {
    assert k < j ==> (k + 1) * align <= j * align;
    assert k >= j ==> j * align <= k * align;
  }

  lemma RoomIff(b: Block, n: nat, align: nat)
    requires align > 0
    ensures b.base + b.used <= AlignUp(b.base + b.used, align)
    ensures HasRoom(b, n, align) <==> AlignUp(b.base + b.used, align) + n <= b.base + b.cap
  {
    hide AlignUp;
    AlignUpIsFirst(b.base + b.used, align);
  }

  /** What the call hands out, and in which block: it starts at the first aligned address and the block
      is used up to its end. */
  ghost predicate Placed(before: Block, after: Block, p: nat, n: nat, align: nat) {
    && FirstAligned(p, before.base + before.used, align)
    && after == Block(before.base, before.cap, p + n - before.base) && p + n <= before.base + before.cap
  }

  /** Below the size limit and with a head block: the call takes no new block if and only if the head
      block has room, and fails if and only if it then gets none. */
  lemma InlineSucceedsIff(a: State, n: nat, align: nat, m: Option<nat>)
    requires a.head != [] && align > 0
    ensures var (a', p) := AllocInline(a, n, align, m);
            && (p.Some? <==> HasRoom(a.head[0], n, align) || m.Some?)
            && (p.None? ==> a' == a)
            && a'.huge == a.huge && a'.blockSize == a.blockSize && |a'.head| > 0
            && (HasRoom(a.head[0], n, align) ==>
                  a'.head[1..] == a.head[1..] && a'.count == a.count && Placed(a.head[0], a'.head[0], p.value, n, align))
            && (!HasRoom(a.head[0], n, align) && m.Some? ==>
                  && a'.head[1..] == a.head && a'.count == a.count + 1
                  && Placed(Block(m.value, Max(a.blockSize, n + align), 0), a'.head[0], p.value, n, align))
  {
    hide AlignUp;
    var b := a.head[0];
    RoomIff(b, n, align);
    AlignUpIsFirst(b.base + b.used, align);
    if m.Some? {
      AlignUpIsFirst(m.value, align);
      AlignUpBounds(m.value, align);
    }
    var (a', p) := AllocInline(a, n, align, m);
    assert HasRoom(b, n, align) || m.Some? ==>
             a'.head[1..] == if HasRoom(b, n, align) then a.head[1..] else a.head;
  }

  /** Requests that get a block to themselves. */
  predicate Large(a: State, n: nat) {
    n > 2048 || n > a.blockSize
  }

  /** The mallocs a call needs: one for a large request or a first block, one for a block that is full. */
  ghost predicate MallocsGiven(a: State, n: nat, align: nat, m1: Option<nat>, m2: Option<nat>) {
    if Large(a, n) then m1.Some?
    else if a.head == [] then m1.Some? && (HasRoom(Block(m1.value, a.blockSize, 0), n, align) || m2.Some?)
    else HasRoom(a.head[0], n, align) || m1.Some?
  }

  /** A call returns a region if and only if it was given the mallocs it needs.  A large request gets a
      block of its own, just large enough for any place of the block; an empty request is for one byte. */
  lemma AllocSucceedsIff(a: State, size: nat, align: nat, m1: Option<nat>, m2: Option<nat>)
    ensures var (a', p) := Alloc(a, size, align, m1, m2);
            var n, ra: nat := if size == 0 then 1 else size, RealAlign(align);
            && (p.Some? <==> MallocsGiven(a, n, ra, m1, m2))
            && (Large(a, n) && p.Some? ==>
                  && a'.head == a.head && |a'.huge| > 0 && a'.huge[1..] == a.huge
                  && Placed(Block(m1.value, n + ra, 0), a'.huge[0], p.value, n, ra))
            && (!Large(a, n) ==> a'.huge == a.huge)
            && (!Large(a, n) && a.head != [] && HasRoom(a.head[0], n, ra) ==> a'.count == a.count)
  {
    hide RealAlign, AlignUp, HasRoom;
    var n, ra: nat := if size == 0 then 1 else size, RealAlign(align);
    if Large(a, n) {
      if m1.Some? {
        AlignUpIsFirst(m1.value, ra);
        AlignUpBounds(m1.value, ra);
        var blk := Alloc(a, size, align, m1, m2).0.huge[0];
        assert Cons(blk, a.huge)[1..] == a.huge;
      }
    } else if a.head != [] {
      InlineSucceedsIff(a, n, ra, m1);
    } else if m1.Some? {
      InlineSucceedsIff(FirstBlock(a, m1.value), n, ra, m2);
    }
  }

  /** After a reset the newest block is used again: whatever fits it empty needs no malloc. */
  lemma ResetReuses(a: State, size: nat, align: nat)
    requires a.head != [] && !Large(a, if size == 0 then 1 else size)
    requires HasRoom(Block(a.head[0].base, a.head[0].cap, 0), if size == 0 then 1 else size, RealAlign(align))
    ensures Alloc(Reset(a), size, align, None, None).1.Some?
    ensures Reset(a).count == 1 && Reset(a).huge == []
  {
    hide RealAlign, HasRoom, Alloc;
    AllocSucceedsIff(Reset(a), size, align, None, None);
  }

  // ----------------------------------------------------------------- over any run

  datatype Op = Get(size: nat, align: nat, m1: Option<nat>, m2: Option<nat>) | Clear

  datatype World = World(arena: State, live: seq<Region>)

  function Step(w: World, op: Op): World {
    match op
    case Get(size, align, m1, m2) =>
      World(Alloc(w.arena, size, align, m1, m2).0, LiveAfter(w.arena, size, align, m1, m2, w.live))
    case Clear => World(Reset(w.arena), [])
  }

  function Run(blockSize: nat, ops: seq<Op>): World {
    if ops == [] then World(New(blockSize), []) else Step(Run(blockSize, ops[..|ops| - 1]), ops[|ops| - 1])
  }

  /** malloc keeps its promise at every step. */
  ghost predicate Sound(blockSize: nat, ops: seq<Op>) {
    ops != [] ==>
      var w, op := Run(blockSize, ops[..|ops| - 1]), ops[|ops| - 1];
      && Sound(blockSize, ops[..|ops| - 1])
      && (op.Get? ==> MallocSound(w.arena, op.size, op.align, op.m1, op.m2))
  }

  /** After any run of allocations and resets: every region handed out since the last reset is
      aligned, inside a block, and apart from every other, no block is overfull, and the
      counters are the exact sums. */
  lemma {:induction false} RunSafe(blockSize: nat, ops: seq<Op>)
    requires Sound(blockSize, ops)
    ensures Inv(Run(blockSize, ops).arena, Run(blockSize, ops).live)
  {
    if ops != [] {
      hide Inv, Alloc, Reset, LiveAfter, MallocSound;
      var init, op := ops[..|ops| - 1], ops[|ops| - 1];
      RunSafe(blockSize, init);
      var w := Run(blockSize, init);
      match op {
        case Get(size, align, m1, m2) => AllocKeeps(w.arena, size, align, m1, m2, w.live);
        case Clear => ResetKeeps(w.arena, w.live);
      }
    }
  }

  // ------------------------------------------------------------------ the C routines

  class Allocator {
    var head: seq<Block>
    var huge: seq<Block>
    var blockSize: nat
    var claimed: nat
    var used: nat
    var count: nat

    ghost function View(): State
      reads this
    {
      State(head, huge, blockSize, claimed, used, count)
    }

    constructor (blockSize: nat)
      ensures View() == New(blockSize)
    {
      this.blockSize := if blockSize == 0 then DEFAULT_BLOCK else blockSize;
      head, huge, claimed, used, count := [], [], 0, 0, 0;
    }

    /** The power-of-two loop; alignments above 2^63 would never end it. */
    static method RoundAlign(align: nat) returns (ra: nat)
      requires align <= 0x8000_0000_0000_0000
      ensures ra == RealAlign(align)
    {
      var a := if align == 0 then 1 else align;
      ra := 1;
      while ra < a
        invariant ra > 0 && DoubleTo(ra, a) == DoubleTo(1, a)
        decreases a - ra
      {
        ra := 2 * ra;
      }
    }

    method AllocAligned(size: nat, align: nat, m1: Option<nat>, m2: Option<nat>) returns (p: Option<nat>)
      requires align <= 0x8000_0000_0000_0000 && size + RealAlign(align) < TWO_64
      modifies this
      ensures (View(), p) == Alloc(old(View()), size, align, m1, m2)
    {
      hide RealAlign, AlignUp;
      var ra := RoundAlign(align);
      var n := if size == 0 then 1 else size;
      if n > MAX_INLINE || n > blockSize {
        if m1.None? { return None; }
        var at := AlignUp(m1.value, ra);
        AlignUpBounds(m1.value, ra);
        var blk := Block(m1.value, n + ra, at - m1.value + n);
        huge := Cons(blk, huge);
        claimed := claimed + blk.cap;
        used := used + blk.used;
        count := count + 1;
        return Some(at);
      }
      var m := m1;
      if head == [] {
        if m1.None? { return None; }
        head := [Block(m1.value, blockSize, 0)];
        claimed := claimed + blockSize;
        count := count + 1;
        m := m2;
      }
      p := Bump(n, ra, m);
    }

    method Bump(n: nat, ra: nat, m: Option<nat>) returns (p: Option<nat>)
      requires head != [] && ra > 0
      modifies this
      ensures (View(), p) == AllocInline(old(View()), n, ra, m)
    {
      hide AlignUp;
      var b := head[0];
      var base := b.base + b.used;
      var aligned := AlignUp(base, ra);
      AlignUpBounds(base, ra);
      var padding := aligned - base;
      var rest := head[1..];
      if b.used + padding + n > b.cap {
        var cap := blockSize;
        if cap < n + ra { cap := n + ra; }
        if m.None? { return None; }
        var nb := Block(m.value, cap, 0);
        rest := head;
        claimed := claimed + nb.cap;
        count := count + 1;
        aligned := AlignUp(m.value, ra);
        AlignUpBounds(m.value, ra);
        padding := aligned - m.value;
        b := nb;
      }
      head := Cons(b.(used := b.used + padding + n), rest);
      used := used + padding + n;
      return Some(aligned);
    }

    /** Take the blocks of a list off the counters. */
    method Forget(blocks: seq<Block>)
      requires SumCap(blocks) <= claimed && |blocks| <= count
      modifies this`claimed, this`count
      ensures claimed == old(claimed) - SumCap(blocks) && count == old(count) - |blocks|
    {
      var i := 0;
      assert blocks[0..] == blocks;
      while i < |blocks|
        invariant i <= |blocks|
        invariant claimed == old(claimed) - SumCap(blocks) + SumCap(blocks[i..])
        invariant count == old(count) - i
      {
        assert blocks[i..][1..] == blocks[i + 1..];
        if claimed >= blocks[i].cap { claimed := claimed - blocks[i].cap; }
        if count > 0 { count := count - 1; }
        i := i + 1;
      }
    }

    method ResetAll()
      requires Totals(View())
      modifies this
      ensures View() == Reset(old(View()))
    {
      if head != [] {
        Forget(head[1..]);
        head := [head[0].(used := 0)];
      }
      Forget(huge);
      huge := [];
      used := 0;
    }
  }
}
