/** Unsigned 64-bit numbers in decimal: printing, and the guarded digit loop that
    jwt_claim_u64_ and parse_go_duration_ns_ (src/auth/auth.c) share. */
module Decimal {
  import opened Bytes

  predicate IsDigit(c: byte) {
    48 <= c <= 57
  }

  ghost predicate AllDigits(ds: seq<byte>) {
    forall i :: 0 <= i < |ds| ==> IsDigit(ds[i])
  }

  /** The number a digit string denotes. */
  function Value(ds: seq<byte>): nat
    requires AllDigits(ds)
  {
    if ds == [] then 0 else 10 * Value(ds[..|ds| - 1]) + (ds[|ds| - 1] - 48)
  }

  lemma DigitsSpelled(c: byte)
    ensures IsDigit(c) <==> c in Ascii("0123456789")
    ensures IsDigit(c) ==> Value([c]) < 10 && Ascii("0123456789")[Value([c])] == c
  {
    var digits := Ascii("0123456789");
    assert IsDigit(c) ==> [c][..0] == [] && Value([c]) == c - 48;
    assert IsDigit(c) ==> digits[c - 48] == c;
  }

  /** "%llu". */
  function Printed(n: nat): (ds: seq<byte>)
    ensures ds != [] && AllDigits(ds)
  {
    if n < 10 then [48 + n] else Printed(n / 10) + [48 + n % 10]
  }

  lemma {:induction false} PrintedValue(n: nat)
    ensures Value(Printed(n)) == n
  {
    if n >= 10 {
      PrintedValue(n / 10);
      assert Printed(n)[..|Printed(n)| - 1] == Printed(n / 10);
    }
  }

  function PowerOfTen(k: nat): nat {
    if k == 0 then 1 else 10 * PowerOfTen(k - 1)
  }

  lemma {:induction false} PrintedLength(n: nat, k: nat)
    requires k > 0 && n < PowerOfTen(k)
    ensures |Printed(n)| <= k
  {
    if n >= 10 {
      PrintedLength(n / 10, k - 1);
    }
  }

  lemma PrintedLengthU64(n: u64)
    ensures |Printed(n)| <= 20
  {
    assert PowerOfTen(10) == 1_00000_00000;
    assert PowerOfTen(20) == 1_00000_00000_00000_00000;
    PrintedLength(n, 20);
  }

  // -------------------------------------------------------- the guarded digit loop

  const LAST: u64 := 1844674407370955161  // UINT64_MAX / 10

  /** One digit more: refused above UINT64_MAX / 10, otherwise added modulo 2^64. */
  function AddDigit(v: u64, c: byte): Option<u64>
    requires IsDigit(c)
  {
    if v > LAST then None else Some((v * 10 + (c - 48)) % TWO_64)
  }

  function Accumulated(ds: seq<byte>): Option<u64>
    requires AllDigits(ds)
  {
    if ds == [] then Some(0)
    else
      match Accumulated(ds[..|ds| - 1])
      case None => None
      case Some(v) => AddDigit(v, ds[|ds| - 1])
  }

  /** Some prefix is 1844674407370955161 and the digit after it is 6, 7, 8 or 9: the guard
      lets the sum wrap past 2^64. */
  ghost predicate Wraps(ds: seq<byte>)
    requires AllDigits(ds)
  {
    exists k :: 0 <= k < |ds| && WrapsAt(ds, k)
  }

  ghost predicate WrapsAt(ds: seq<byte>, k: nat)
    requires AllDigits(ds) && k < |ds|
  {
    Value(ds[..k]) == LAST && ds[k] >= 54
  }

  /** The loop computes the exact value, refusing exactly what does not fit, unless it wraps. */
  lemma {:induction false} AccumulatedExact(ds: seq<byte>)
    requires AllDigits(ds) && !Wraps(ds)
    ensures Accumulated(ds) == if Value(ds) < TWO_64 then Some(Value(ds)) else None
  {
    if ds != [] {
      var n := |ds| - 1;
      var init := ds[..n];
      forall k | 0 <= k < |init| ensures !WrapsAt(init, k) {
        assert init[..k] == ds[..k];
        assert !WrapsAt(ds, k);
      }
      AccumulatedExact(init);
      assert !WrapsAt(ds, n);
    }
  }

  lemma {:induction false} ValuePrefix(ds: seq<byte>, k: nat)
    requires AllDigits(ds) && k <= |ds|
    ensures Value(ds[..k]) <= Value(ds)
  {
    if k < |ds| {
      var init := ds[..|ds| - 1];
      assert init[..k] == ds[..k];
      ValuePrefix(init, k);
    } else {
      assert ds[..k] == ds;
    }
  }

  /** A digit string that wraps denotes a number past 64 bits. */
  lemma WrapsIsTooBig(ds: seq<byte>)
    requires AllDigits(ds) && Wraps(ds)
    ensures Value(ds) >= TWO_64
  {
    var k :| 0 <= k < |ds| && WrapsAt(ds, k);
    assert ds[..k + 1][..k] == ds[..k];
    assert Value(ds[..k + 1]) == 10 * Value(ds[..k]) + (ds[k] - 48);
    ValuePrefix(ds, k + 1);
  }

  /** The digits that are left when the guard has let the place `k` wrap. */
  function Left(ds: seq<byte>, k: nat): (rest: seq<byte>)
    requires AllDigits(ds) && k < |ds| && ds[k] >= 54
    ensures AllDigits(rest) && |rest| == |ds| - k
  {
    [ds[k] - 6] + ds[k + 1..]
  }

  /** Wrapping forgets everything before: the loop goes on as if it had read these digits only. */
  lemma {:induction false} AfterWrap(ds: seq<byte>, k: nat)
    requires AllDigits(ds) && k < |ds| && WrapsAt(ds, k)
    ensures Accumulated(ds) == Accumulated(Left(ds, k))
  {
    var n := |ds| - 1;
    var init, rest := ds[..n], Left(ds, k);
    if k == n {
      if Wraps(init) { WrapsIsTooBig(init); }
      AccumulatedExact(init);
      assert rest == [ds[k] - 6] && rest[..0] == [];
    } else {
      assert init[..k] == ds[..k];
      AfterWrap(init, k);
      assert rest[..|rest| - 1] == Left(init, k) && rest[|rest| - 1] == ds[n];
    }
  }

  ghost function WrapPlace(ds: seq<byte>): (k: nat)
    requires AllDigits(ds) && Wraps(ds)
    ensures 0 < k < |ds| && WrapsAt(ds, k)
  {
    var k :| 0 <= k < |ds| && WrapsAt(ds, k);
    k
  }

  /** The number a digit string is read as: its value, or that of what is left after a wrap. */
  ghost function Read(ds: seq<byte>): nat
    requires AllDigits(ds)
    decreases |ds|
  {
    if Wraps(ds) then Read(Left(ds, WrapPlace(ds))) else Value(ds)
  }

  function Fitting(v: nat): Option<u64> {
    if v < TWO_64 then Some(v) else None
  }

  /** What the loop gives on every digit string. */
  lemma {:induction false} AccumulatedIsRead(ds: seq<byte>)
    requires AllDigits(ds)
    ensures Accumulated(ds) == Fitting(Read(ds))
    decreases |ds|
  {
    if Wraps(ds) {
      AfterWrap(ds, WrapPlace(ds));
      AccumulatedIsRead(Left(ds, WrapPlace(ds)));
    } else {
      AccumulatedExact(ds);
    }
  }

  /** The loop is exact if and only if no place wraps or what is left is too big as well. */
  lemma ExactIff(ds: seq<byte>)
    requires AllDigits(ds)
    ensures Accumulated(ds) == Fitting(Value(ds)) <==> !Wraps(ds) || Read(ds) >= TWO_64
  {
    AccumulatedIsRead(ds);
    if Wraps(ds) { WrapsIsTooBig(ds); }
  }

  /** Whatever is accepted is right modulo 2^64. */
  lemma {:induction false} AcceptedModulo(ds: seq<byte>)
    requires AllDigits(ds) && Accumulated(ds).Some?
    ensures Accumulated(ds).value == Value(ds) % TWO_64
  {
    if ds != [] {
      var init, d := ds[..|ds| - 1], ds[|ds| - 1] as int - 48;
      AcceptedModulo(init);
      var v, q := Value(init), Value(init) / TWO_64;
      assert v == TWO_64 * q + v % TWO_64;
      assert 10 * v + d == TWO_64 * (10 * q) + (10 * (v % TWO_64) + d);
      SameRemainder(10 * v + d, 10 * (v % TWO_64) + d, 10 * q);
    }
  }

  lemma SameRemainder(a: nat, b: nat, q: nat)
    requires a == TWO_64 * q + b
    ensures a % TWO_64 == b % TWO_64
  {
    var x, y := a / TWO_64, b / TWO_64;
    assert a % TWO_64 - b % TWO_64 == TWO_64 * (q + y - x);
  }

  /** Printing and reading back any 64-bit number gives that number. */
  lemma PrintedReadsBack(n: u64)
    ensures Accumulated(Printed(n)) == Some(n)
  {
    PrintedValue(n);
    if Wraps(Printed(n)) {
      WrapsIsTooBig(Printed(n));
    }
    AccumulatedExact(Printed(n));
  }

  // ----------------------------------------------------------------- the digit run

  /** Length of the run of digits that starts at `p`. */
  function RunLength(s: seq<byte>, p: nat): (n: nat)
    requires p <= |s|
    ensures p + n <= |s| && forall i :: p <= i < p + n ==> IsDigit(s[i])
    ensures p + n == |s| || !IsDigit(s[p + n])
    decreases |s| - p
  {
    if p < |s| && IsDigit(s[p]) then 1 + RunLength(s, p + 1) else 0
  }

  function Run(s: seq<byte>, p: nat): (ds: seq<byte>)
    requires p <= |s|
    ensures AllDigits(ds)
  {
    s[p..p + RunLength(s, p)]
  }

  lemma {:induction false} AccumulatedPrefix(ds: seq<byte>, k: nat)
    requires AllDigits(ds) && k <= |ds| && Accumulated(ds[..k]).None?
    ensures Accumulated(ds).None?
  {
    if k < |ds| {
      assert ds[..|ds| - 1][..k] == ds[..k];
      AccumulatedPrefix(ds[..|ds| - 1], k);
    } else {
      assert ds[..k] == ds;
    }
  }

  /** The inner loop: the value of the run at `p`, and where it ends. */
  method ReadRun(s: seq<byte>, p: nat) returns (v: Option<u64>, q: nat)
    requires p <= |s|
    ensures v == Accumulated(Run(s, p))
    ensures v.Some? ==> q == p + RunLength(s, p)
  {
    var n: u64 := 0;
    q := p;
    ghost var end := p + RunLength(s, p);
    ghost var ds := Run(s, p);
    while q < |s| && IsDigit(s[q])
      invariant p <= q <= end
      invariant Accumulated(ds[..q - p]) == Some(n)
    {
      assert q < end;
      assert ds[..q - p + 1][..q - p] == ds[..q - p] && ds[q - p] == s[q];
      if n > LAST {
        AccumulatedPrefix(ds, q - p + 1);
        return None, q;
      }
      n := (n * 10 + (s[q] - 48)) % TWO_64;
      q := q + 1;
    }
    assert q == end;
    assert ds[..q - p] == ds;
    return Some(n), q;
  }

  lemma {:induction false} RunIs(s: seq<byte>, p: nat, ds: seq<byte>)
    requires AllDigits(ds) && p + |ds| <= |s| && s[p..p + |ds|] == ds
    requires p + |ds| == |s| || !IsDigit(s[p + |ds|])
    ensures RunLength(s, p) == |ds| && Run(s, p) == ds
  {
    assert forall i :: 0 <= i < |ds| ==> s[p + i] == s[p..p + |ds|][i] == ds[i];
  }
}
