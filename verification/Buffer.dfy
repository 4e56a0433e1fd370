/** The growable byte buffer (src/base/buf.c): doubling growth, appends, reset. */
module Buffer {
  import opened Bytes

  // ------------------------------------------------------------------------- growth

  /** Double `cap` until it reaches `want`; None when that would pass SIZE_MAX. */
  function Doubled(cap: nat, want: nat): Option<nat>
    requires cap > 0
    decreases want - cap
  {
    if cap >= want then Some(cap)
    else if cap > U64_MAX / 2 then None
    else Doubled(2 * cap, want)
  }

  function NewCap(cap: nat, want: nat): Option<nat> {
    Doubled(if cap == 0 then 16 else cap, want)
  }

  ghost predicate CapOk(cap: nat) {
    cap == 0 || exists k: nat :: cap == 16 * PowerOfTwo(k)
  }

  lemma {:induction false} DoubledIs(cap: nat, want: nat)
    requires cap > 0 && CapOk(cap)
    ensures var r := Doubled(cap, want);
            r.Some? ==>
              && CapOk(r.value) && r.value >= want && r.value >= cap
              && (r.value == cap || (r.value >= 2 * cap && r.value < 2 * want))
    decreases want - cap
  {
    if cap < want && cap <= U64_MAX / 2 {
      var k: nat :| cap == 16 * PowerOfTwo(k);
      assert 2 * cap == 16 * PowerOfTwo(k + 1);
      DoubledIs(2 * cap, want);
    }
  }

  /** Growth succeeds if and only if some doubling of the capacity is enough and fits 64 bits, and then
      takes the first that is enough. */
  lemma {:induction false} DoubledIff(cap: nat, want: nat)
    requires 0 < cap < TWO_64
    ensures Doubled(cap, want).Some? <==> CanGrow(cap, want)
    ensures Doubled(cap, want).Some? ==>
              exists k: nat :: Doubled(cap, want).value == cap * PowerOfTwo(k) && forall j: nat :: Enough(cap, want, j) ==> k <= j
    decreases want - cap
  {
    hide Enough;
    EnoughNow(cap, want);
    if cap < want {
      if cap <= U64_MAX / 2 {
        DoubledIff(2 * cap, want);
        DoublingOnce(cap, want);
        if Doubled(cap, want).Some? {
          var k: nat :| Doubled(2 * cap, want).value == 2 * cap * PowerOfTwo(k) && forall j: nat :: Enough(2 * cap, want, j) ==> k <= j;
          FirstDoubling(cap, want, k);
        }
      } else {
        NoDoubling(cap, want);
      }
    }
  }

  predicate Enough(cap: nat, want: nat, k: nat) {
    want <= cap * PowerOfTwo(k) < TWO_64
  }

  ghost predicate CanGrow(cap: nat, want: nat) {
    exists k: nat :: Enough(cap, want, k)
  }

  lemma EnoughNow(cap: nat, want: nat)
    requires 0 < cap < TWO_64
    ensures Enough(cap, want, 0) <==> cap >= want
    ensures cap == cap * PowerOfTwo(0)
  {
  }

  lemma EnoughOneLess(cap: nat, want: nat, k: nat)
    ensures Enough(cap, want, k + 1) <==> Enough(2 * cap, want, k)
    ensures cap * PowerOfTwo(k + 1) == 2 * cap * PowerOfTwo(k)
  {
    assert PowerOfTwo(k + 1) == 2 * PowerOfTwo(k);
    assert cap * (2 * PowerOfTwo(k)) == 2 * cap * PowerOfTwo(k);
  }

  lemma DoublingOnce(cap: nat, want: nat)
    requires 0 < cap < want && cap < TWO_64
    ensures CanGrow(cap, want) <==> CanGrow(2 * cap, want)
  {
    hide Enough;
    EnoughNow(cap, want);
    if k: nat :| Enough(cap, want, k) { EnoughOneLess(cap, want, k - 1); }
    if k: nat :| Enough(2 * cap, want, k) { EnoughOneLess(cap, want, k); }
  }

  lemma FirstDoubling(cap: nat, want: nat, k: nat)
    requires 0 < cap < want && cap < TWO_64 && forall j: nat :: Enough(2 * cap, want, j) ==> k <= j
    ensures cap * PowerOfTwo(k + 1) == 2 * cap * PowerOfTwo(k)
    ensures forall j: nat :: Enough(cap, want, j) ==> k + 1 <= j
  {
    hide Enough;
    EnoughNow(cap, want);
    EnoughOneLess(cap, want, k);
    forall j: nat | Enough(cap, want, j) ensures k + 1 <= j {
      EnoughOneLess(cap, want, j - 1);
    }
  }

  lemma NoDoubling(cap: nat, want: nat)
    requires cap < want && U64_MAX / 2 < cap
    ensures forall k: nat :: !Enough(cap, want, k)
  {
    forall k: nat ensures !Enough(cap, want, k) {
      if k == 0 {
        assert cap * PowerOfTwo(0) == cap;
      } else {
        assert PowerOfTwo(k) >= 2;
        assert cap * PowerOfTwo(k) >= cap * 2;
      }
    }
  }

  // --------------------------------------------------------------------- over any run

  /** The contents and capacity, with the bytes all reallocations have moved so far (each moves
      the old block) and the greatest length ever reached. */
  datatype State = State(contents: seq<byte>, cap: nat, moved: nat, peak: nat)

  const EMPTY: State := State([], 0, 0, 0)

  /** `ok` is whether realloc succeeds when it is needed. */
  datatype Op = Append(bytes: seq<byte>, ok: bool) | Clear

  /** The outcome of an append; None leaves the buffer as it was. */
  function Appended(s: State, bytes: seq<byte>, ok: bool): Option<State> {
    if bytes == [] then Some(s)
    else
      var want := |s.contents| + |bytes|;
      if want <= s.cap then Some(s.(contents := s.contents + bytes, peak := Max(s.peak, want)))
      else
        match NewCap(s.cap, want)
        case None => None
        case Some(c) =>
          if !ok then None
          else Some(State(s.contents + bytes, c, s.moved + s.cap, Max(s.peak, want)))
  }

  /** An append fails if and only if it needs growth and either the memory is refused or no doubling
      of the capacity will do; the bytes then lie behind the others, and the capacity is enough. */
  lemma AppendSucceedsIff(s: State, bytes: seq<byte>, ok: bool)
    requires |s.contents| <= s.cap < TWO_64
    ensures var r, want := Appended(s, bytes, ok), |s.contents| + |bytes|;
            && (r.Some? <==> want <= s.cap || (ok && CanGrow(if s.cap == 0 then 16 else s.cap, want)))
            && (r.Some? ==> r.value.contents == s.contents + bytes && want <= r.value.cap && s.cap <= r.value.cap)
  {
    hide Enough;
    var want, cap := |s.contents| + |bytes|, if s.cap == 0 then 16 else s.cap;
    if bytes == [] { assert s.contents + bytes == s.contents; }
    DoubledIff(cap, want);
    DoubledAtLeast(cap, want);
  }

  lemma {:induction false} DoubledAtLeast(cap: nat, want: nat)
    requires cap > 0
    ensures Doubled(cap, want).Some? ==> Doubled(cap, want).value >= want && Doubled(cap, want).value >= cap
    decreases want - cap
  {
    if cap < want && cap <= U64_MAX / 2 { DoubledAtLeast(2 * cap, want); }
  }

  function Step(s: State, op: Op): State {
    match op
    case Clear => s.(contents := [])
    case Append(bytes, ok) =>
      match Appended(s, bytes, ok)
      case None => s
      case Some(s') => s'
  }

  function Run(ops: seq<Op>): State {
    if ops == [] then EMPTY else Step(Run(ops[..|ops| - 1]), ops[|ops| - 1])
  }

  ghost predicate Inv(s: State) {
    && CapOk(s.cap)
    && |s.contents| <= s.cap && |s.contents| <= s.peak
    && (s.cap == 0 ==> s.moved == 0)
    && (s.cap > 0 ==> s.moved + 16 <= s.cap)
    && (s.cap <= 16 || s.cap < 2 * s.peak)
  }

  lemma {:induction false} StepKeeps(s: State, op: Op)
    requires Inv(s)
    ensures Inv(Step(s, op))
  {
    if op.Append? && op.bytes != [] {
      var want := |s.contents| + |op.bytes|;
      if want > s.cap {
        assert 16 == 16 * PowerOfTwo(0);
        assert CapOk(if s.cap == 0 then 16 else s.cap);
        DoubledIs(if s.cap == 0 then 16 else s.cap, want);
      }
    }
  }

  lemma {:induction false} RunKeeps(ops: seq<Op>)
    ensures Inv(Run(ops))
  {
    if ops != [] {
      RunKeeps(ops[..|ops| - 1]);
      StepKeeps(Run(ops[..|ops| - 1]), ops[|ops| - 1]);
    }
  }

  /** Amortised cost: over any run of appends, failed appends and resets, all reallocations
      together move fewer bytes than twice the greatest length. */
  lemma MovedBelowTwicePeak(ops: seq<Op>)
    ensures Run(ops).moved == 0 || Run(ops).moved < 2 * Run(ops).peak
    ensures CapOk(Run(ops).cap)
  {
    RunKeeps(ops);
  }

  /** The bytes of the appends since the last reset. */
  function Joined(ops: seq<Op>): seq<byte> {
    if ops == [] then []
    else
      match ops[|ops| - 1]
      case Clear => []
      case Append(bytes, _) => Joined(ops[..|ops| - 1]) + bytes
  }

  /** Every append of the run succeeded. */
  ghost predicate AllSucceed(ops: seq<Op>) {
    forall i :: 0 <= i < |ops| && ops[i].Append? ==> Appended(Run(ops[..i]), ops[i].bytes, ops[i].ok).Some?
  }

  /** The contents are exactly what was appended, in order. */
  lemma {:induction false} ContentsAreJoined(ops: seq<Op>)
    requires AllSucceed(ops)
    ensures Run(ops).contents == Joined(ops)
  {
    if ops != [] {
      var n := |ops| - 1;
      var init := ops[..n];
      forall i | 0 <= i < |init| && init[i].Append?
        ensures Appended(Run(init[..i]), init[i].bytes, init[i].ok).Some?
      {
        assert init[..i] == ops[..i];
      }
      ContentsAreJoined(init);
      assert ops[n].Append? ==> Appended(Run(ops[..n]), ops[n].bytes, ops[n].ok).Some?;
    }
  }

  // ------------------------------------------------------------------ the C routines

  datatype Status = Done | Overflow | NoMem

  class Buf {
    var data: array<byte>
    var len: nat

    ghost predicate Valid()
      reads this
    {
      len <= data.Length
    }

    ghost function Contents(): seq<byte>
      requires Valid()
      reads this, data
    {
      data[..len]
    }

    constructor ()
      ensures Valid() && Contents() == [] && data.Length == 0 && fresh(data)
    {
      data := new byte[0];
      len := 0;
    }

    /** buf_grow_to_: the array is the allocation, its length the capacity. */
    method GrowTo(want: nat, ok: bool) returns (rc: Status)
      requires Valid()
      modifies this`data
      ensures Valid() && Contents() == old(Contents()) && (data == old(data) || fresh(data))
      ensures want <= old(data.Length) ==> rc == Done && data == old(data)
      ensures want > old(data.Length) ==>
                && (rc == Overflow <==> NewCap(old(data.Length), want).None?)
                && (rc == NoMem <==> NewCap(old(data.Length), want).Some? && !ok)
                && (rc == Done ==> fresh(data) && Some(data.Length) == NewCap(old(data.Length), want))
      ensures rc != Done ==> data == old(data)
      ensures rc == Done ==> want <= data.Length
    {
      if want <= data.Length { return Done; }
      var cap := if data.Length == 0 then 16 else data.Length;
      while cap < want
        invariant cap > 0 && cap >= data.Length && data == old(data)
        invariant NewCap(data.Length, want) == Doubled(cap, want)
        decreases want - cap
      {
        if cap > U64_MAX / 2 { return Overflow; }
        cap := 2 * cap;
      }
      if !ok { return NoMem; }
      var p := new byte[cap](_ => 0);
      forall i | 0 <= i < data.Length {
        p[i] := data[i];
      }
      assert p[..len] == data[..len];
      data := p;
      return Done;
    }

    /** cetcd_buf_append. */
    method AppendBytes(bytes: seq<byte>, ok: bool) returns (rc: Status)
      requires Valid() && len + |bytes| < TWO_64
      modifies this, data
      ensures Valid() && (data == old(data) || fresh(data))
      ensures var s := State(old(Contents()), old(data.Length), 0, 0);
              && (rc == Done <==> Appended(s, bytes, ok).Some?)
              && (rc == Done ==> Contents() == Appended(s, bytes, ok).value.contents
                                 && data.Length == Appended(s, bytes, ok).value.cap)
              && (rc != Done ==> Contents() == old(Contents()) && data == old(data))
    {
      if |bytes| == 0 { return Done; }
      rc := GrowTo(len + |bytes|, ok);
      if rc != Done { return; }
      forall i | 0 <= i < |bytes| {
        data[len + i] := bytes[i];
      }
      assert data[..len] == old(Contents());
      assert data[len..len + |bytes|] == bytes;
      assert data[..len + |bytes|] == data[..len] + data[len..len + |bytes|];
      len := len + |bytes|;
    }

    /** cetcd_buf_append_byte. */
    method AppendByte(v: byte, ok: bool) returns (rc: Status)
      requires Valid() && len + 1 < TWO_64
      modifies this, data
      ensures Valid() && (data == old(data) || fresh(data))
      ensures var s := State(old(Contents()), old(data.Length), 0, 0);
              && (rc == Done <==> Appended(s, [v], ok).Some?)
              && (rc == Done ==> Contents() == Appended(s, [v], ok).value.contents
                                 && data.Length == Appended(s, [v], ok).value.cap)
              && (rc != Done ==> Contents() == old(Contents()) && data == old(data))
    {
      rc := GrowTo(len + 1, ok);
      if rc != Done { return; }
      data[len] := v;
      assert data[..len] == old(Contents());
      len := len + 1;
    }

    /** cetcd_buf_reset. */
    method Reset()
      requires Valid()
      modifies this`len
      ensures Valid() && Contents() == [] && data == old(data)
    {
      len := 0;
    }
  }
}
