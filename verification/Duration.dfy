/** parse_go_duration_ns_ (src/auth/auth.c): durations such as "1h30m" in nanoseconds. */
module Duration {
  import opened Bytes
  import opened Decimal

  // --------------------------------------------------------------------- reference

  datatype TimeUnit = Nano | Micro | Milli | Second | Minute | Hour

  function Scale(u: TimeUnit): nat {
    match u
    case Nano => 1
    case Micro => 1_000
    case Milli => 1_000_000
    case Second => 1_000_000_000
    case Minute => 60_000_000_000
    case Hour => 3600_000_000_000
  }

  function Letters(u: TimeUnit): seq<byte> {
    match u
    case Nano => [110, 115]    // "ns"
    case Micro => [117, 115]   // "us"
    case Milli => [109, 115]   // "ms"
    case Second => [115]       // "s"
    case Minute => [109]       // "m"
    case Hour => [104]         // "h"
  }

  /** A number and its unit. */
  datatype Term = Term(digits: seq<byte>, scale: TimeUnit)

  ghost predicate TermOk(t: Term) {
    t.digits != [] && AllDigits(t.digits)
  }

  ghost predicate TermsOk(ts: seq<Term>) {
    forall i :: 0 <= i < |ts| ==> TermOk(ts[i])
  }

  function Written(ts: seq<Term>): seq<byte> {
    if ts == [] then [] else ts[0].digits + (Letters(ts[0].scale) + Written(ts[1..]))
  }

  /** The exact duration, as a number without a width. */
  ghost function Total(ts: seq<Term>): nat
    requires TermsOk(ts)
  {
    if ts == [] then 0 else Value(ts[0].digits) * Scale(ts[0].scale) + Total(ts[1..])
  }

  /** No digit run is of the kind that the digit guard lets wrap. */
  ghost predicate Clean(ts: seq<Term>)
    requires TermsOk(ts)
  {
    forall i :: 0 <= i < |ts| ==> !Wraps(ts[i].digits)
  }

  lemma UnitsSpelled()
    ensures Letters(Nano) == Ascii("ns") && Scale(Nano) == 1
    ensures Letters(Micro) == Ascii("us") && Scale(Micro) == 1000 * Scale(Nano)
    ensures Letters(Milli) == Ascii("ms") && Scale(Milli) == 1000 * Scale(Micro)
    ensures Letters(Second) == Ascii("s") && Scale(Second) == 1000 * Scale(Milli)
    ensures Letters(Minute) == Ascii("m") && Scale(Minute) == 60 * Scale(Second)
    ensures Letters(Hour) == Ascii("h") && Scale(Hour) == 60 * Scale(Minute)
  {
  }

  // ---------------------------------------------------------------------- the parser

  /** The unit at `p`, and how many letters it takes. */
  function UnitAt(s: seq<byte>, p: nat): Option<TimeUnit>
    requires p <= |s|
  {
    var c := if p < |s| then s[p] as int else 0;
    var d := if p + 1 < |s| then s[p + 1] as int else 0;
    if c == 110 && d == 115 then Some(Nano)
    else if c == 117 && d == 115 then Some(Micro)
    else if c == 109 && d == 115 then Some(Milli)
    else if c == 115 then Some(Second)
    else if c == 109 then Some(Minute)
    else if c == 104 then Some(Hour)
    else None
  }

  /** The digits and unit at `p`, and where they end. */
  function TermAt(s: seq<byte>, p: nat): (r: Option<(Term, nat)>)
    requires p < |s|
    ensures r.Some? ==> p < r.value.1 <= |s| && TermOk(r.value.0)
  {
    if !IsDigit(s[p]) then None
    else
      var q := p + RunLength(s, p);
      match UnitAt(s, q)
      case None => None
      case Some(u) => Some((Term(Run(s, p), u), q + |Letters(u)|))
  }

  /** The two overflow guards. */
  function AddTerm(total: u64, n: u64, u: TimeUnit): Option<u64> {
    if n > U64_MAX / Scale(u) then None
    else
      FitsIff(n, Scale(u));
      if total > U64_MAX - n * Scale(u) then None else Some(total + n * Scale(u))
  }

  /** The rest of the loop from `p` on with `total` so far. */
  function ParsedFrom(s: seq<byte>, p: nat, total: u64): Option<u64>
    requires p <= |s|
    decreases |s| - p
  {
    if p == |s| then Some(total)
    else
      match TermAt(s, p)
      case None => None
      case Some((t, q)) =>
        match Accumulated(t.digits)
        case None => None
        case Some(n) =>
          match AddTerm(total, n, t.scale)
          case None => None
          case Some(sum) => ParsedFrom(s, q, sum)
  }

  function Parsed(s: seq<byte>): Option<u64> {
    if s == [] then None else ParsedFrom(s, 0, 0)
  }

  /** The unit letters at `q` as a factor, and the position after them. */
  method ReadUnit(s: seq<byte>, q: nat) returns (mul: u64, next: nat, ghost u: TimeUnit)
    requires q <= |s|
    ensures mul == 0 <==> UnitAt(s, q).None?
    ensures mul != 0 ==> UnitAt(s, q) == Some(u) && mul == Scale(u) && next == q + |Letters(u)| <= |s|
  {
    var c := if q < |s| then s[q] as int else 0;
    var d := if q + 1 < |s| then s[q + 1] as int else 0;
    if c == 110 && d == 115 { return 1, q + 2, Nano; }
    else if c == 117 && d == 115 { return 1000, q + 2, Micro; }
    else if c == 109 && d == 115 { return 1000000, q + 2, Milli; }
    else if c == 115 { return 1000000000, q + 1, Second; }
    else if c == 109 { return 60 * 1000000000, q + 1, Minute; }
    else if c == 104 { return 3600 * 1000000000, q + 1, Hour; }
    return 0, q, Nano;
  }

  /** Digits and a unit from `p` on. */
  method ReadTerm(s: seq<byte>, p: nat) returns (ok: bool, n: u64, mul: u64, next: nat, ghost t: Term)
    requires p < |s|
    ensures !ok ==> TermAt(s, p).None? || Accumulated(TermAt(s, p).value.0.digits).None?
    ensures ok ==> p < next <= |s| && TermAt(s, p) == Some((t, next)) && Accumulated(t.digits) == Some(n)
    ensures ok ==> mul > 0 && mul == Scale(t.scale)
  {
    hide UnitAt, Scale, Letters, Accumulated;
    ok, n, mul, next, t := false, 0, 0, p, Term([], Nano);
    if s[p] < 48 || s[p] > 57 { return; }
    var v, q := ReadRun(s, p);
    if v.None? { return; }
    ghost var u;
    mul, next, u := ReadUnit(s, q);
    if mul == 0 { return; }
    ok, n, t := true, v.value, Term(Run(s, p), u);
  }

  method Parse(s: seq<byte>) returns (r: Option<u64>)
    ensures r == Parsed(s)
  {
    hide TermAt, Scale, Accumulated;
    if s == [] { return None; }
    var total: u64 := 0;
    var p := 0;
    while p < |s|
      invariant p <= |s|
      invariant Parsed(s) == ParsedFrom(s, p, total)
      decreases |s| - p
    {
      var ok, n, mul, next, t := ReadTerm(s, p);
      if !ok { return None; }
      if n > U64_MAX / mul { return None; }
      FitsIff(n, mul);
      if total > U64_MAX - n * mul { return None; }
      assert AddTerm(total, n, t.scale) == Some(total + n * mul);
      total := total + n * mul;
      p := next;
    }
    return Some(total);
  }

  // ------------------------------------------------------------------------ theorems

  lemma UnitWritten(s: seq<byte>, p: nat, u: TimeUnit)
    requires p + |Letters(u)| <= |s| && s[p..p + |Letters(u)|] == Letters(u)
    requires p + |Letters(u)| < |s| ==> IsDigit(s[p + |Letters(u)|])
    ensures UnitAt(s, p) == Some(u)
  {
    var l := Letters(u);
    assert s[p] == s[p..p + |l|][0];
    if |l| == 2 {
      assert s[p + 1] == s[p..p + |l|][1];
    }
  }

  lemma UnitRead(s: seq<byte>, p: nat)
    requires p <= |s| && UnitAt(s, p).Some?
    ensures var l := Letters(UnitAt(s, p).value); p + |l| <= |s| && s[p..p + |l|] == l
  {
  }

  /** Division guards are exact. */
  lemma FitsIff(n: nat, scale: nat)
    requires scale > 0
    ensures n > U64_MAX / scale <==> n * scale > U64_MAX
  {
    var q, r := U64_MAX / scale, U64_MAX % scale;
    assert U64_MAX == q * scale + r;
    if n > q {
      assert n * scale >= (q + 1) * scale;
    } else {
      assert n * scale <= q * scale;
    }
  }

  lemma WrittenTail(ts: seq<Term>)
    requires ts != [] && TermsOk(ts)
    ensures TermsOk(ts[1..])
    ensures ts[1..] != [] ==> Written(ts[1..]) != [] && IsDigit(Written(ts[1..])[0])
  {
    assert forall i :: 0 <= i < |ts| - 1 ==> ts[1..][i] == ts[i + 1];
  }

  /** The term at `p` of what was written from terms. */
  lemma {:induction false} FirstTerm(s: seq<byte>, p: nat, ts: seq<Term>)
    requires ts != [] && TermsOk(ts) && p <= |s| && s[p..] == Written(ts)
    ensures p < |s| && TermsOk(ts[1..])
    ensures var q := p + |ts[0].digits| + |Letters(ts[0].scale)|;
            q <= |s| && TermAt(s, p) == Some((ts[0], q)) && s[q..] == Written(ts[1..])
  {
    hide Letters, UnitAt;
    var t, rest := ts[0], ts[1..];
    var n, l, w := |t.digits|, Letters(t.scale), s[p..];
    LettersShort(t.scale);
    WrittenTail(ts);
    assert w == t.digits + (l + Written(rest));
    hide Written, RunLength, Run;
    Layout(s, p, t.digits, l, Written(rest));
    RunIs(s, p, t.digits);
    if p + n + |l| < |s| {
      assert rest != [] by { if rest == [] { WrittenNothing(); } }
    }
    UnitWritten(s, p + n, t.scale);
  }

  lemma Layout(s: seq<byte>, p: nat, a: seq<byte>, b: seq<byte>, c: seq<byte>)
    requires p <= |s| && s[p..] == a + (b + c) && a != [] && b != []
    ensures p + |a| + |b| <= |s| && |s| == p + |a| + |b| + |c|
    ensures s[p..p + |a|] == a && s[p + |a|..p + |a| + |b|] == b && s[p + |a| + |b|..] == c
    ensures s[p] == a[0] && s[p + |a|] == b[0]
    ensures c != [] ==> s[p + |a| + |b|] == c[0]
  {
    var w := s[p..];
    assert s[p..p + |a|] == w[..|a|];
    assert s[p + |a|..p + |a| + |b|] == w[|a|..|a| + |b|];
    assert s[p + |a| + |b|..] == w[|a| + |b|..];
    assert s[p] == w[0] && s[p + |a|] == w[|a|];
  }

  lemma LettersShort(u: TimeUnit)
    ensures 0 < |Letters(u)| <= 2 && !IsDigit(Letters(u)[0])
  {
  }

  lemma AddTermExact(total: u64, n: u64, u: TimeUnit)
    ensures AddTerm(total, n, u) ==
            if total + n * Scale(u) <= U64_MAX then Some(total + n * Scale(u)) else None
  {
    hide Scale;
    ScalePositive(u);
    FitsIff(n, Scale(u));
  }

  lemma ScalePositive(u: TimeUnit)
    ensures Scale(u) > 0
  {
  }

  /** The total with every digit string taken as it is read. */
  ghost function ReadTotal(ts: seq<Term>): nat
    requires TermsOk(ts)
  {
    if ts == [] then 0 else Read(ts[0].digits) * Scale(ts[0].scale) + ReadTotal(ts[1..])
  }

  lemma {:induction false} CleanTotal(ts: seq<Term>)
    requires TermsOk(ts) && Clean(ts)
    ensures ReadTotal(ts) == Total(ts)
  {
    hide Scale;
    if ts != [] {
      assert forall i :: 0 <= i < |ts| - 1 ==> ts[1..][i] == ts[i + 1];
      CleanTotal(ts[1..]);
    }
  }

  /** Parsing what was written from terms: their total as read, refused when it does not fit. */
  lemma {:induction false} ParsesWritten(s: seq<byte>, p: nat, ts: seq<Term>, total: u64)
    requires TermsOk(ts) && p <= |s| && s[p..] == Written(ts)
    ensures ParsedFrom(s, p, total) == Fitting(total + ReadTotal(ts))
    decreases |ts|
  {
    hide TermAt, AddTerm, Scale, Letters, Accumulated, Written, Read;
    if ts == [] {
      WrittenNothing();
      assert |s[p..]| == 0;
      return;
    }
    var t, rest := ts[0], ts[1..];
    FirstTerm(s, p, ts);
    var q := p + |t.digits| + |Letters(t.scale)|;
    AccumulatedIsRead(t.digits);
    var v := Read(t.digits);
    ScalePositive(t.scale);
    TooBig(v, Scale(t.scale));
    if v < TWO_64 {
      AddTermExact(total, v, t.scale);
      if total + v * Scale(t.scale) <= U64_MAX {
        ParsesWritten(s, q, rest, total + v * Scale(t.scale));
      }
    }
  }

  lemma WrittenNothing()
    ensures Written([]) == []
  {
  }

  lemma TooBig(v: nat, scale: nat)
    requires scale > 0
    ensures v <= v * scale
  {
  }

  lemma TermRead(s: seq<byte>, p: nat)
    requires p < |s| && TermAt(s, p).Some?
    ensures var (t, q) := TermAt(s, p).value; s[p..] == t.digits + (Letters(t.scale) + s[q..])
  {
    hide UnitAt, Letters;
    var r := p + RunLength(s, p);
    UnitRead(s, r);
    var (t, q) := TermAt(s, p).value;
    assert s[p..] == s[p..r] + (s[r..q] + s[q..]);
  }

  /** Whatever is accepted was written from terms. */
  lemma {:induction false} AcceptedIsWritten(s: seq<byte>, p: nat, total: u64) returns (ts: seq<Term>)
    requires p <= |s| && ParsedFrom(s, p, total).Some?
    ensures TermsOk(ts) && s[p..] == Written(ts)
    decreases |s| - p
  {
    hide TermAt, AddTerm, Letters, Accumulated;
    if p == |s| {
      ts := [];
    } else {
      var (t, q) := TermAt(s, p).value;
      var n := Accumulated(t.digits).value;
      var rest := AcceptedIsWritten(s, q, AddTerm(total, n, t.scale).value);
      ts := [t] + rest;
      assert ts[1..] == rest;
      TermRead(s, p);
    }
  }

  /** A string has at most one reading as terms. */
  lemma {:induction false} OneReading(a: seq<Term>, b: seq<Term>)
    requires TermsOk(a) && TermsOk(b) && Written(a) == Written(b)
    ensures a == b
    decreases |a|
  {
    hide Written, TermsOk, TermAt, Letters;
    var s := Written(a);
    assert s[0..] == s;
    WrittenNothing();
    if a != [] { FirstTerm(s, 0, a); }
    if b != [] { FirstTerm(s, 0, b); }
    if a != [] && b != [] {
      OneReading(a[1..], b[1..]);
      assert a == [a[0]] + a[1..] && b == [b[0]] + b[1..];
    }
  }

  /** Exactness: a non-empty list of clean terms is accepted exactly when its total fits in
      64 bits, with that total. */
  lemma ParsedIsTotal(ts: seq<Term>)
    requires ts != [] && TermsOk(ts) && Clean(ts)
    ensures Parsed(Written(ts)) == if Total(ts) <= U64_MAX then Some(Total(ts)) else None
  {
    hide Written, Total, ReadTotal, Clean, TermsOk, Parsed;
    ParsedIsRead(ts);
    CleanTotal(ts);
  }

  /** What the parser gives on every list of terms. */
  lemma ParsedIsRead(ts: seq<Term>)
    requires ts != [] && TermsOk(ts)
    ensures Parsed(Written(ts)) == Fitting(ReadTotal(ts))
  {
    hide Written, ReadTotal, TermsOk, ParsedFrom, TermAt;
    var s := Written(ts);
    assert s[0..] == s;
    FirstTerm(s, 0, ts);
    ParsesWritten(s, 0, ts, 0);
  }

  /** The parser is exact if and only if no digit string wraps or the total as read is too big
      as well. */
  lemma ParsedExactIff(ts: seq<Term>)
    requires ts != [] && TermsOk(ts)
    ensures Parsed(Written(ts)) == Fitting(Total(ts)) <==> Clean(ts) || ReadTotal(ts) >= TWO_64
  {
    hide Written, Total, ReadTotal, Clean, TermsOk, Parsed;
    ParsedIsRead(ts);
    if Clean(ts) { CleanTotal(ts); } else { UncleanIsTooBig(ts); }
  }

  /** Nothing else is accepted: a string with no reading as terms is refused. */
  lemma OnlyTermsAccepted(s: seq<byte>)
    requires Parsed(s).Some?
    ensures exists ts :: ts != [] && TermsOk(ts) && s == Written(ts)
  {
    var ts := AcceptedIsWritten(s, 0, 0);
    assert s[0..] == s;
  }

  lemma {:induction false} TermInTotal(ts: seq<Term>, i: nat)
    requires TermsOk(ts) && i < |ts|
    ensures Value(ts[i].digits) <= Total(ts)
  {
    TooBig(Value(ts[0].digits), Scale(ts[0].scale));
    if i > 0 {
      assert forall j :: 0 <= j < |ts| - 1 ==> ts[1..][j] == ts[j + 1];
      TermInTotal(ts[1..], i - 1);
    }
  }

  /** A list that is not clean has a total past 64 bits, so refusing it is right: there the
      parser meets the exact answer if and only if it refuses. */
  lemma UncleanIsTooBig(ts: seq<Term>)
    requires TermsOk(ts) && !Clean(ts)
    ensures Total(ts) > U64_MAX
  {
    var i :| 0 <= i < |ts| && Wraps(ts[i].digits);
    WrapsIsTooBig(ts[i].digits);
    TermInTotal(ts, i);
  }

  /** Ten times 2^64 is read as 0 too. */
  lemma LongerWraps(ds: seq<byte>)
    requires ds == Printed(TWO_64) + [48]
    ensures Accumulated(ds) == Some(0)
  {
    hide Printed;
    WrapDigits();
    assert ds[..|ds| - 1] == Printed(TWO_64);
  }

  /** "18446744073709551616ns", which is 2^64 nanoseconds, is accepted as 0. */
  lemma WrapAccepted()
    ensures var ds: seq<byte> := Printed(0x1_0000_0000_0000_0000);
            TermOk(Term(ds, Nano)) && Parsed(Written([Term(ds, Nano)])) == Some(0)
  {
    hide Printed, Accumulated, Clean, Total;
    var ds := Printed(TWO_64);
    WrapDigits();
    var t := Term(ds, Nano);
    var ts := [t];
    var s := Written(ts);
    assert s[0..] == s;
    FirstTerm(s, 0, ts);
    assert ts[1..] == [] && |s| == |ds| + 2;
    assert AddTerm(0, 0, Nano) == Some(0);
    assert ParsedFrom(s, |s|, 0) == Some(0);
    hide TermAt, Accumulated, AddTerm;
    assert ParsedFrom(s, 0, 0) == Some(0);
  }

  lemma WrapDigits()
    ensures Accumulated(Printed(TWO_64)) == Some(0)
  {
    hide Printed, Accumulated;
    WrapsTo(TWO_64, LAST);
  }

  lemma WrapsTo(n: nat, last: u64)
    requires last == LAST && n == 10 * last + 6
    ensures Accumulated(Printed(n)) == Some(0)
  {
    PrintedReadsBack(last);
    var ds, init := Printed(n), Printed(last);
    assert n / 10 == last && n % 10 == 6;
    assert ds == init + [54];
    assert ds[..|ds| - 1] == init;
  }
}
