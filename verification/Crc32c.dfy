/** CRC32C as computed by src/base/hash.c: a 256-entry table drives one byte per
    step.  The reference here is the definition the table is derived from, division
    of the message by the reflected Castagnoli polynomial one bit at a time.
    A 32-bit register is the sequence of its bits, least significant first, so a
    right shift drops the first bit and xor works bit by bit. */
module Crc32c {

  import opened Bytes

  type Register = r: seq<bool> | |r| == 32
    witness [false, false, false, false, false, false, false, false,
             false, false, false, false, false, false, false, false,
             false, false, false, false, false, false, false, false,
             false, false, false, false, false, false, false, false]

  /** 0x82F63B78. */
  const POLY: Register :=
    [false, false, false, true, true, true, true, false,     // 0x78
     true, true, false, true, true, true, false, false,      // 0x3B
     false, true, true, false, true, true, true, true,       // 0xF6
     false, true, false, false, false, false, false, true]   // 0x82

  function Xor(a: Register, b: Register): Register {
    seq(32, i requires 0 <= i < 32 => a[i] != b[i])
  }

  function Complement(c: Register): Register {
    seq(32, i requires 0 <= i < 32 => !c[i])
  }

  /** Logical shift right by `k` bits. */
  function ShiftRight(c: Register, k: nat): Register
    requires k <= 32
  {
    c[k..] + seq(k, _ => false)
  }

  // ---------------------------------------------------------------- reference

  /** One step of the division: shift the register right by one bit and subtract
      (xor) the polynomial when the bit shifted out is 1. */
  function BitStep(c: Register): Register {
    if c[0] then Xor(POLY, ShiftRight(c, 1)) else ShiftRight(c, 1)
  }

  function Steps(c: Register, k: nat): Register
    decreases k
  {
    if k == 0 then c else Steps(BitStep(c), k - 1)
  }

  /** `bits` added (xor) into the low end of the register. */
  function XorInto(c: Register, bits: seq<bool>): Register
    requires |bits| <= 32
  {
    seq(32, i requires 0 <= i < 32 => if i < |bits| then c[i] != bits[i] else c[i])
  }

  /** Division of a bit string, first bit first, starting from register `c`. */
  function Divide(c: Register, bits: seq<bool>): Register
    decreases |bits|
  {
    if bits == [] then c else Divide(BitStep(XorInto(c, bits[..1])), bits[1..])
  }

  /** The lowest `n` bits of a number, least significant first. */
  function LowBits(x: nat, n: nat): (bits: seq<bool>)
    ensures |bits| == n
    decreases n
  {
    if n == 0 then [] else [x % 2 == 1] + LowBits(x / 2, n - 1)
  }

  function Bits(data: seq<byte>): (bits: seq<bool>)
    ensures |bits| == 8 * |data|
  {
    if data == [] then [] else LowBits(data[0], 8) + Bits(data[1..])
  }

  /** The checksum by definition: preset and final complement around the division. */
  function Crc(crc: Register, data: seq<byte>): Register {
    Complement(Divide(Complement(crc), Bits(data)))
  }

  // ------------------------------------------------- algebra of the bit step

  lemma BitStepLinear(a: Register, b: Register)
    ensures BitStep(Xor(a, b)) == Xor(BitStep(a), BitStep(b))
  {
  }

  /** The polynomial has its top bit set, so a step can be undone. */
  lemma BitStepInjective(a: Register, b: Register)
    requires BitStep(a) == BitStep(b)
    ensures a == b
  {
    assert BitStep(a)[31] == a[0] && BitStep(b)[31] == b[0];
    forall i | 0 < i < 32 ensures a[i] == b[i] {
      assert BitStep(a)[i - 1] == BitStep(b)[i - 1];
    }
  }

  lemma {:induction false} StepsLinear(a: Register, b: Register, k: nat)
    ensures Steps(Xor(a, b), k) == Xor(Steps(a, k), Steps(b, k))
    decreases k
  {
    if k > 0 {
      BitStepLinear(a, b);
      StepsLinear(BitStep(a), BitStep(b), k - 1);
    }
  }

  lemma {:induction false} StepsInjective(a: Register, b: Register, k: nat)
    requires Steps(a, k) == Steps(b, k)
    ensures a == b
    decreases k
  {
    if k > 0 {
      StepsInjective(BitStep(a), BitStep(b), k - 1);
      BitStepInjective(a, b);
    }
  }

  lemma {:induction false} DivideConcat(c: Register, x: seq<bool>, y: seq<bool>)
    ensures Divide(c, x + y) == Divide(Divide(c, x), y)
    decreases |x|
  {
    if x == [] {
      assert x + y == y;
    } else {
      assert (x + y)[1..] == x[1..] + y && (x + y)[..1] == x[..1];
      DivideConcat(BitStep(XorInto(c, x[..1])), x[1..], y);
    }
  }

  lemma XorIntoInjective(c: Register, d: Register, u: seq<bool>, v: seq<bool>)
    requires |u| == |v| <= 32
    requires XorInto(c, u) == XorInto(d, v)
    ensures c == d <==> u == v
  {
    forall i | 0 <= i < 32
      ensures if i < |u| then (c[i] == d[i] <==> u[i] == v[i]) else c[i] == d[i]
    {
      assert XorInto(c, u)[i] == XorInto(d, v)[i];
    }
    if u == v {
      assert c == d;
    }
  }

  /** Different registers stay different whatever common message follows. */
  lemma {:induction false} DivideInjective(a: Register, b: Register, bits: seq<bool>)
    requires Divide(a, bits) == Divide(b, bits)
    ensures a == b
    decreases |bits|
  {
    if bits != [] {
      var w := bits[..1];
      DivideInjective(BitStep(XorInto(a, w)), BitStep(XorInto(b, w)), bits[1..]);
      BitStepInjective(XorInto(a, w), XorInto(b, w));
      XorIntoInjective(a, b, w, w);
    }
  }

  lemma FirstBitOfMany(c: Register, bits: seq<bool>)
    requires 0 < |bits| <= 32
    ensures BitStep(XorInto(c, bits)) == XorInto(BitStep(XorInto(c, bits[..1])), bits[1..])
  {
    var l, r := BitStep(XorInto(c, bits)), XorInto(BitStep(XorInto(c, bits[..1])), bits[1..]);
    forall i | 0 <= i < 32 ensures l[i] == r[i] {
      if i < 31 {
        assert XorInto(c, bits)[i + 1] == if i + 1 < |bits| then c[i + 1] != bits[i + 1] else c[i + 1];
      }
    }
  }

  /** Feeding up to 32 bits one at a time is the same as adding them all to the
      register at once and then stepping. */
  lemma {:induction false} DivideIsSteps(c: Register, bits: seq<bool>)
    requires |bits| <= 32
    ensures Divide(c, bits) == Steps(XorInto(c, bits), |bits|)
    decreases |bits|
  {
    if bits == [] {
      assert XorInto(c, bits) == c;
    } else {
      FirstBitOfMany(c, bits);
      DivideIsSteps(BitStep(XorInto(c, bits[..1])), bits[1..]);
    }
  }

  // ------------------------------------------------------------ byte at a time

  /** While the low `k` bits are 0 the polynomial is never subtracted. */
  lemma {:induction false} EvenSteps(h: Register, k: nat)
    requires k <= 32 && forall i :: 0 <= i < k ==> !h[i]
    ensures Steps(h, k) == ShiftRight(h, k)
    decreases k
  {
    if k > 0 {
      var s := ShiftRight(h, 1);
      Shifted(h, k);
      EvenSteps(s, k - 1);
    } else {
      assert ShiftRight(h, 0) == h;
    }
  }

  lemma Shifted(h: Register, k: nat)
    requires 0 < k <= 32
    ensures ShiftRight(ShiftRight(h, 1), k - 1) == ShiftRight(h, k)
    ensures forall i :: 0 <= i < 31 ==> ShiftRight(h, 1)[i] == h[i + 1]
  {
    var s := ShiftRight(h, 1);
    forall i | 0 <= i < 32 ensures ShiftRight(s, k - 1)[i] == ShiftRight(h, k)[i] {
      assert ShiftRight(h, k)[i] == (i + k < 32 && h[i + k]);
      assert ShiftRight(s, k - 1)[i] == (i + k - 1 < 32 && s[i + k - 1]);
    }
  }

  function Zeros(): Register {
    seq(32, _ => false)
  }

  /** The table identity: dividing one byte is a lookup on the low register byte,
      xor the remaining register bits. */
  lemma TableStep(c: Register, bits: seq<bool>)
    requires |bits| == 8
    ensures Divide(c, bits) == Xor(Steps(XorInto(Zeros(), XorInto(c, bits)[..8]), 8), ShiftRight(c, 8))
  {
    hide Steps, Divide, Xor, ShiftRight;
    var x := XorInto(c, bits);
    var low, high := XorInto(Zeros(), x[..8]), Cleared(x);
    DivideIsSteps(c, bits);
    SplitByte(c, bits);
    StepsLinear(low, high, 8);
    EvenSteps(high, 8);
  }

  /** The register without its lowest byte. */
  function Cleared(x: Register): Register {
    seq(32, i requires 0 <= i < 32 => i >= 8 && x[i])
  }

  lemma SplitByte(c: Register, bits: seq<bool>)
    requires |bits| == 8
    ensures var x := XorInto(c, bits);
            Xor(XorInto(Zeros(), x[..8]), Cleared(x)) == x && ShiftRight(Cleared(x), 8) == ShiftRight(c, 8)
  {
    var x := XorInto(c, bits);
    assert ShiftRight(Cleared(x), 8) == ShiftRight(c, 8);
  }

  /** The number whose low bits are `bits`. */
  function Number(bits: seq<bool>): nat {
    if bits == [] then 0 else (if bits[0] then 1 else 0) + 2 * Number(bits[1..])
  }

  lemma {:induction false} NumberBits(bits: seq<bool>)
    ensures LowBits(Number(bits), |bits|) == bits
    ensures Number(bits) < PowerOfTwo(|bits|)
  {
    if bits != [] {
      NumberBits(bits[1..]);
      assert bits == [bits[0]] + bits[1..];
    }
  }

  lemma {:induction false} BitsNumber(x: nat, n: nat)
    requires x < PowerOfTwo(n)
    ensures Number(LowBits(x, n)) == x
    decreases n
  {
    if n > 0 {
      BitsNumber(x / 2, n - 1);
      assert LowBits(x, n)[1..] == LowBits(x / 2, n - 1);
    }
  }

  lemma {:induction false} BitsConcat(a: seq<byte>, b: seq<byte>)
    ensures Bits(a + b) == Bits(a) + Bits(b)
  {
    if a == [] {
      assert a + b == b;
    } else {
      assert (a + b)[1..] == a[1..] + b;
      BitsConcat(a[1..], b);
    }
  }

  lemma SliceOfTail(head: seq<bool>, rest: seq<bool>, at: nat)
    requires |head| == 8 && at + 8 <= |rest|
    ensures (head + rest)[at + 8..at + 16] == rest[at..at + 8]
  {
  }

  lemma {:induction false} BitsAt(data: seq<byte>, i: nat)
    requires i < |data|
    ensures Bits(data)[8 * i..8 * i + 8] == LowBits(data[i], 8)
  {
    var rest := Bits(data[1..]);
    assert Bits(data) == LowBits(data[0], 8) + rest;
    if i > 0 {
      BitsAt(data[1..], i - 1);
      SliceOfTail(LowBits(data[0], 8), rest, 8 * (i - 1));
    }
  }

  lemma BitsInjective(a: seq<byte>, b: seq<byte>)
    requires Bits(a) == Bits(b)
    ensures a == b
  {
    assert |a| == |b|;
    forall i | 0 <= i < |a| ensures a[i] == b[i] {
      BitsAt(a, i);
      BitsAt(b, i);
      assert PowerOfTwo(8) == 256;
      BitsNumber(a[i], 8);
      BitsNumber(b[i], 8);
    }
  }

  // ------------------------------------------------------------------ theorems

  /** A checksum may be continued: the checksum of a first part is the seed of the rest. */
  lemma CrcComposes(crc: Register, a: seq<byte>, b: seq<byte>)
    ensures Crc(Crc(crc, a), b) == Crc(crc, a + b)
  {
    var d := Divide(Complement(crc), Bits(a));
    assert Complement(Complement(d)) == d;
    BitsConcat(a, b);
    DivideConcat(Complement(crc), Bits(a), Bits(b));
  }

  /** Two bit strings that differ, and differ only inside a window of 32 bits. */
  ghost predicate DifferInWindow(x: seq<bool>, y: seq<bool>, k: nat) {
    && |x| == |y|
    && x != y
    && forall i :: 0 <= i < |x| && !(k <= i < k + 32) ==> x[i] == y[i]
  }

  lemma WindowSeparates(c: Register, u: seq<bool>, v: seq<bool>, post: seq<bool>)
    requires |u| == |v| <= 32 && u != v
    ensures Divide(c, u + post) != Divide(c, v + post)
  {
    if Divide(c, u + post) == Divide(c, v + post) {
      DivideConcat(c, u, post);
      DivideConcat(c, v, post);
      DivideInjective(Divide(c, u), Divide(c, v), post);
      DivideIsSteps(c, u);
      DivideIsSteps(c, v);
      StepsInjective(XorInto(c, u), XorInto(c, v), |u|);
      XorIntoInjective(c, c, u, v);
    }
  }

  lemma BurstSeparates(c: Register, x: seq<bool>, y: seq<bool>, k: nat)
    requires DifferInWindow(x, y, k)
    ensures Divide(c, x) != Divide(c, y)
  {
    assert k < |x|;
    var e := if k + 32 <= |x| then k + 32 else |x|;
    var pre, u, v, post := x[..k], x[k..e], y[k..e], x[e..];
    assert x == pre + (u + post);
    assert y == pre + (v + post) by {
      assert y[..k] == pre && y[e..] == post;
    }
    assert u != v;
    DivideConcat(c, pre, u + post);
    DivideConcat(c, pre, v + post);
    WindowSeparates(Divide(c, pre), u, v, post);
  }

  /** Every burst error of at most 32 bits changes the checksum: two messages of equal
      length that differ only inside a window of 32 consecutive bits have different
      checksums, for every seed and wherever the window lies. */
  lemma BurstDetected(crc: Register, a: seq<byte>, b: seq<byte>, k: nat)
    requires DifferInWindow(Bits(a), Bits(b), k)
    ensures Crc(crc, a) != Crc(crc, b)
  {
    BurstSeparates(Complement(crc), Bits(a), Bits(b), k);
    var u, v := Divide(Complement(crc), Bits(a)), Divide(Complement(crc), Bits(b));
    assert Complement(Complement(u)) == u && Complement(Complement(v)) == v;
  }

  /** The byte form: a difference confined to four adjacent bytes is always detected. */
  lemma FourByteBurstDetected(crc: Register, a: seq<byte>, b: seq<byte>, at: nat)
    requires |a| == |b| && a != b
    requires forall i :: 0 <= i < |a| && !(at <= i < at + 4) ==> a[i] == b[i]
    ensures Crc(crc, a) != Crc(crc, b)
  {
    hide Bits, LowBits, Divide, Crc;
    var x, y := Bits(a), Bits(b);
    forall j | 0 <= j < |x| && !(8 * at <= j < 8 * at + 32) ensures x[j] == y[j] {
      SameBit(a, b, j);
    }
    if x == y {
      BitsInjective(a, b);
    }
    BurstDetected(crc, a, b, 8 * at);
  }

  lemma SameBit(a: seq<byte>, b: seq<byte>, j: nat)
    requires |a| == |b| && j < 8 * |a| && a[j / 8] == b[j / 8]
    ensures Bits(a)[j] == Bits(b)[j]
  {
    hide Bits, LowBits;
    var i := j / 8;
    BitsAt(a, i);
    BitsAt(b, i);
    assert Bits(a)[j] == Bits(a)[8 * i..8 * i + 8][j - 8 * i];
    assert Bits(b)[j] == Bits(b)[8 * i..8 * i + 8][j - 8 * i];
  }

  // ------------------------------------------------------------ the C routines

  /** A byte zero-extended to a register. */
  function Widen(x: byte): Register {
    XorInto(Zeros(), LowBits(x, 8))
  }

  ghost predicate TableUpTo(table: seq<Register>, n: nat) {
    && |table| == 256
    && forall i :: 0 <= i < n <= 256 ==> table[i] == Steps(Widen(i), 8)
  }

  /** The low byte of the register xor the message byte, as a number. */
  function Index(c: Register, b: byte): nat {
    Number(Xor(c, Widen(b))[..8])
  }

  lemma LookupStep(c: Register, b: byte, table: seq<Register>)
    requires TableUpTo(table, 256)
    ensures Index(c, b) < 256
    ensures Xor(table[Index(c, b)], ShiftRight(c, 8)) == Divide(c, LowBits(b, 8))
  {
    var low := Xor(c, Widen(b))[..8];
    NumberBits(low);
    assert PowerOfTwo(8) == 256;
    TableStep(c, LowBits(b, 8));
    assert XorInto(c, LowBits(b, 8))[..8] == low;
  }

  lemma DivideOneMore(c: Register, data: seq<byte>, i: nat)
    requires i < |data|
    ensures Divide(c, Bits(data[..i + 1])) == Divide(Divide(c, Bits(data[..i])), LowBits(data[i], 8))
  {
    assert data[..i + 1] == data[..i] + [data[i]];
    BitsConcat(data[..i], [data[i]]);
    assert Bits([data[i]]) == LowBits(data[i], 8) + Bits([]);
    assert Bits([data[i]]) == LowBits(data[i], 8);
    DivideConcat(c, Bits(data[..i]), LowBits(data[i], 8));
  }

  /** The table, filled on first use, and the byte loop that reads it. */
  class Checksum {
    var table: array<Register>
    var inited: bool

    ghost predicate Valid()
      reads this, table
    {
      && table.Length == 256
      && (inited ==> TableUpTo(table[..], 256))
    }

    constructor ()
      ensures Valid() && !inited && fresh(table)
    {
      table := new Register[256](_ => Zeros());
      inited := false;
    }

    /** The inner loop of the table construction. */
    static method EightSteps(start: Register) returns (c: Register)
      ensures c == Steps(start, 8)
    {
      c := start;
      for k := 0 to 8
        invariant Steps(c, 8 - k) == Steps(start, 8)
      {
        c := if c[0] then Xor(POLY, ShiftRight(c, 1)) else ShiftRight(c, 1);
      }
    }

    method InitTable()
      requires Valid()
      modifies this, table
      ensures Valid() && inited && table == old(table)
    {
      for i := 0 to 256
        invariant table == old(table) && table.Length == 256
        invariant TableUpTo(table[..], i)
      {
        var c := EightSteps(Widen(i));
        table[i] := c;
        assert forall j :: 0 <= j < i ==> table[..][j] == old(table)[..][j];
      }
      inited := true;
    }

    method Update(crc: Register, data: seq<byte>) returns (r: Register)
      requires Valid()
      modifies this, table
      ensures Valid() && inited && table == old(table)
      ensures r == Crc(crc, data)
    {
      if !inited {
        InitTable();
      }
      var c := Feed(Complement(crc), data);
      r := Complement(c);
    }

    /** The byte loop. */
    method Feed(start: Register, data: seq<byte>) returns (c: Register)
      requires Valid() && inited
      ensures c == Divide(start, Bits(data))
    {
      c := start;
      for i := 0 to |data|
        invariant c == Divide(start, Bits(data[..i]))
      {
        DivideOneMore(start, data, i);
        LookupStep(c, data[i], table[..]);
        var index := Index(c, data[i]);
        c := Xor(table[index], ShiftRight(c, 8));
      }
      assert data[..|data|] == data;
    }
  }
}
