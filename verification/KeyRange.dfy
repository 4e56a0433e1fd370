/** The key range of a permission: cetcd_auth_perm_covers (src/auth/auth.c) and
    cetcd_key_prefix_end (src/base/slice.c), against the lexicographic order. */
module KeyRange {
  import opened Bytes

  // -------------------------------------------------------- the reference order

  ghost predicate Agree(a: seq<byte>, b: seq<byte>, k: nat)
    requires k <= |a| && k <= |b|
  {
    forall i :: 0 <= i < k ==> a[i] == b[i]
  }

  /** `a` sorts before `b`: they agree on `k` bytes and then `a` ends or is smaller. */
  ghost predicate LessAt(a: seq<byte>, b: seq<byte>, k: nat) {
    && k <= |a| && k < |b|
    && Agree(a, b, k)
    && (k == |a| || a[k] < b[k])
  }

  ghost predicate Less(a: seq<byte>, b: seq<byte>) {
    exists k: nat :: LessAt(a, b, k)
  }

  ghost predicate AtMost(a: seq<byte>, b: seq<byte>) {
    a == b || Less(a, b)
  }

  /** Length of the longest common prefix. */
  function Common(a: seq<byte>, b: seq<byte>): (k: nat)
    ensures k <= |a| && k <= |b|
    ensures Agree(a, b, k)
    ensures k == |a| || k == |b| || a[k] != b[k]
  {
    if a == [] || b == [] || a[0] != b[0] then 0
    else
      assert forall i :: 0 < i < |a| ==> a[i] == a[1..][i - 1];
      assert forall i :: 0 < i < |b| ==> b[i] == b[1..][i - 1];
      Common(a[1..], b[1..]) + 1
  }

  lemma LessIffCommon(a: seq<byte>, b: seq<byte>)
    ensures Less(a, b) <==> LessAt(a, b, Common(a, b))
  {
    var c := Common(a, b);
    forall k: nat | LessAt(a, b, k)
      ensures k == c
    {
    }
  }

  /** The order is total and strict. */
  lemma Trichotomy(a: seq<byte>, b: seq<byte>)
    ensures Less(a, b) || a == b || Less(b, a)
    ensures !(Less(a, b) && Less(b, a)) && !(Less(a, b) && a == b)
  {
    LessIffCommon(a, b);
    LessIffCommon(b, a);
    CommonSymmetric(a, b);
    var k := Common(a, b);
    if k == |a| == |b| {
      assert a == b;
    }
  }

  lemma {:induction false} CommonSymmetric(a: seq<byte>, b: seq<byte>)
    ensures Common(a, b) == Common(b, a)
  {
    if a != [] && b != [] && a[0] == b[0] {
      CommonSymmetric(a[1..], b[1..]);
    }
  }

  // ------------------------------------------------------------- the C routines

  /** memcmp over the first `n` bytes: the sign of the first difference. */
  function MemCmp(a: seq<byte>, b: seq<byte>, n: nat): int
    requires n <= |a| && n <= |b|
    decreases n
  {
    if n == 0 then 0
    else if a[0] != b[0] then a[0] - b[0]
    else MemCmp(a[1..], b[1..], n - 1)
  }

  predicate PrefixMatch(prefix: seq<byte>, key: seq<byte>) {
    if |prefix| == 0 then true
    else if |key| < |prefix| then false
    else MemCmp(key, prefix, |prefix|) == 0
  }

  predicate PermCovers(key: seq<byte>, lo: seq<byte>, hi: seq<byte>) {
    if |hi| == 0 then PrefixMatch(lo, key)
    else
      var above :=
        if |hi| == 1 && hi[0] == 0 then false
        else
          var c := MemCmp(key, hi, Min(|key|, |hi|));
          c > 0 || (c == 0 && |key| >= |hi|);
      if above then false
      else if |lo| > 0 then
        var c := MemCmp(key, lo, Min(|key|, |lo|));
        !(c < 0 || (c == 0 && |key| < |lo|))
      else true
  }

  /** cetcd_key_prefix_end into a buffer of `cap` bytes; None is a return of 0. */
  method PrefixEnd(key: seq<byte>, cap: nat) returns (out: Option<seq<byte>>)
    ensures out.None? <==> cap == 0 || cap < |key|
    ensures out.Some? ==> IsPrefixEnd(key, out.value)
  {
    if cap == 0 { return None; }
    if |key| == 0 {
      return Some([0]);
    }
    if cap < |key| { return None; }
    var buf := key;
    var i := |key|;
    while i > 0
      invariant 0 <= i <= |key|
      invariant buf == key
      invariant forall j :: i <= j < |key| ==> key[j] == 0xFF
    {
      var idx := i - 1;
      if buf[idx] < 0xFF {
        buf := buf[idx := buf[idx] + 1];
        assert buf[..idx + 1] == key[..idx] + [key[idx] + 1];
        return Some(buf[..idx + 1]);
      }
      i := i - 1;
    }
    return Some([0]);
  }

  /** All bytes 0xFF, the empty key included: no key follows every extension. */
  ghost predicate Unbounded(key: seq<byte>) {
    forall j :: 0 <= j < |key| ==> key[j] == 0xFF
  }

  /** The key with its 0xFF tail cut off and its last remaining byte raised, or the
      single 0 that stands for "no upper bound". */
  ghost predicate IsPrefixEnd(key: seq<byte>, end: seq<byte>) {
    if Unbounded(key) then end == [0]
    else
      && 0 < |end| <= |key|
      && var n := |end| - 1;
         && key[n] < 0xFF
         && (forall j :: n < j < |key| ==> key[j] == 0xFF)
         && end == key[..n] + [key[n] + 1]
  }

  // ------------------------------------------------------------------- theorems

  lemma {:induction false} MemCmpSign(a: seq<byte>, b: seq<byte>, n: nat)
    requires n <= |a| && n <= |b|
    ensures var k := Common(a, b);
            if k >= n then MemCmp(a, b, n) == 0 else (MemCmp(a, b, n) < 0 <==> a[k] < b[k]) && MemCmp(a, b, n) != 0
    decreases n
  {
    if n > 0 && a[0] == b[0] {
      MemCmpSign(a[1..], b[1..], n - 1);
    }
  }

  lemma MemCmpIsOrder(a: seq<byte>, b: seq<byte>)
    ensures var c := MemCmp(a, b, Min(|a|, |b|));
            && (Less(a, b) <==> c < 0 || (c == 0 && |a| < |b|))
            && (Less(b, a) <==> c > 0 || (c == 0 && |a| > |b|))
  {
    MemCmpSign(a, b, Min(|a|, |b|));
    LessIffCommon(a, b);
    LessIffCommon(b, a);
    CommonSymmetric(a, b);
  }

  lemma PrefixMatchIsPrefix(prefix: seq<byte>, key: seq<byte>)
    ensures PrefixMatch(prefix, key) <==> prefix <= key
  {
    if 0 < |prefix| <= |key| {
      MemCmpSign(key, prefix, |prefix|);
      var k := Common(key, prefix);
      if k == |prefix| {
        assert prefix == key[..k];
      } else {
        assert key[k] != prefix[k];
      }
    }
  }

  /** What a stored permission means: an empty `hi` is a prefix, a single 0 byte an open
      upper end, anything else the half-open interval from `lo` to `hi`. */
  lemma CoversIsInterval(key: seq<byte>, lo: seq<byte>, hi: seq<byte>)
    ensures PermCovers(key, lo, hi) <==>
            if hi == [] then lo <= key
            else if hi == [0] then AtMost(lo, key)
            else AtMost(lo, key) && Less(key, hi)
  {
    PrefixMatchIsPrefix(lo, key);
    MemCmpIsOrder(key, hi);
    MemCmpIsOrder(key, lo);
    Trichotomy(key, lo);
    Trichotomy(key, hi);
    if lo == [] {
      LessIffCommon(lo, key);
    }
  }

  lemma BelowRaised(pre: seq<byte>, b: byte, x: seq<byte>)
    requires b < 0xFF
    ensures Less(x, pre + [b + 1]) <==>
            Less(x, pre) || (pre <= x && (|x| == |pre| || x[|pre|] <= b))
  {
    var e := pre + [b + 1];
    LessIffCommon(x, e);
    LessIffCommon(x, pre);
    CommonExtend(x, pre, b + 1);
  }

  lemma {:induction false} CommonExtend(x: seq<byte>, pre: seq<byte>, c: byte)
    ensures var k := Common(x, pre);
            if k < |pre| || |x| == |pre| || x[k] != c
            then Common(x, pre + [c]) == k
            else Common(x, pre + [c]) == k + 1
    ensures pre <= x <==> Common(x, pre) == |pre|
  {
    if x != [] && pre != [] {
      assert (pre + [c])[1..] == pre[1..] + [c];
      if x[0] == pre[0] {
        CommonExtend(x[1..], pre[1..], c);
        assert pre <= x <==> pre[1..] <= x[1..];
      }
    } else if pre == [] && x != [] {
      assert (pre + [c])[1..] == [];
    }
  }

  /** A key is at or above `lo` and not below it in the order of its first bytes: at
      or above `lo` all of whose bytes from `n` on are 0xFF means having the prefix, or
      being above it already within the first `n` bytes. */
  lemma AtLeastTail(x: seq<byte>, lo: seq<byte>, n: nat)
    requires n <= |lo| && forall j :: n <= j < |lo| ==> lo[j] == 0xFF
    requires lo[..n] <= x
    ensures AtMost(lo, x) <==> lo <= x
  {
    LessIffCommon(lo, x);
    var k := Common(lo, x);
    assert forall i :: 0 <= i < n ==> x[i] == lo[..n][i] == lo[i];
    assert k >= n;
    if k == |lo| {
      assert lo == x[..k];
    }
  }

  /** With the end that PrefixEnd computes, the interval check and the prefix check of
      an empty end accept exactly the same keys. */
  lemma PrefixEndCovers(key: seq<byte>, lo: seq<byte>, hi: seq<byte>)
    requires IsPrefixEnd(lo, hi)
    ensures PermCovers(key, lo, hi) <==> PermCovers(key, lo, [])
  {
    CoversIsInterval(key, lo, hi);
    CoversIsInterval(key, lo, []);
    if Unbounded(lo) {
      assert lo[..0] <= key;
      AtLeastTail(key, lo, 0);
    } else {
      var n := |hi| - 1;
      var pre := lo[..n];
      assert hi != [0];
      BelowRaised(pre, lo[n], key);
      PrefixEndInterval(key, lo, n);
    }
  }

  lemma PrefixEndInterval(x: seq<byte>, lo: seq<byte>, n: nat)
    requires n < |lo| && lo[n] < 0xFF && forall j :: n < j < |lo| ==> lo[j] == 0xFF
    ensures var pre := lo[..n];
            (AtMost(lo, x) && (Less(x, pre) || (pre <= x && (|x| == n || x[n] <= lo[n])))) <==> lo <= x
  {
    var pre := lo[..n];
    LessIffCommon(lo, x);
    LessIffCommon(x, pre);
    CommonTake(lo, x, n);
    var k := Common(lo, x);
    if lo <= x {
      assert lo[..n + 1] <= x;
      AtLeastTail(x, lo, n + 1);
    } else if pre <= x {
      assert forall i :: 0 <= i < n ==> x[i] == pre[i] == lo[i];
      if |x| > n && x[n] == lo[n] {
        assert lo[..n + 1] == x[..n + 1];
        AtLeastTail(x, lo, n + 1);
      }
    }
  }

  lemma CommonTake(lo: seq<byte>, x: seq<byte>, n: nat)
    requires n <= |lo|
    ensures Common(x, lo[..n]) == Min(n, Common(lo, x))
  {
    var p := lo[..n];
    var a, b := Common(x, p), Common(lo, x);
    assert forall i :: 0 <= i < n ==> p[i] == lo[i];
  }

  /** PrefixEnd is the first key after every key with the prefix: above all of them, and
      no smaller key is. */
  lemma PrefixEndIsLeast(lo: seq<byte>, end: seq<byte>, x: seq<byte>)
    requires IsPrefixEnd(lo, end) && !Unbounded(lo)
    ensures lo <= x ==> Less(x, end)
    ensures Less(x, end) ==> exists y: seq<byte> :: lo <= y && AtMost(x, y)
  {
    var n := |end| - 1;
    var pre := lo[..n];
    BelowRaised(pre, lo[n], x);
    PrefixEndInterval(x, lo, n);
    if lo <= x {
      assert pre <= x && x[n] == lo[n];
    }
    if Less(x, end) {
      // Extend lo by more 0xFF bytes than x has.
      var tail: seq<byte> := seq(|x| + 1, _ => 0xFF);
      ExtendedAbove(lo, end, x, lo + tail);
    }
  }

  lemma ExtendedAbove(lo: seq<byte>, end: seq<byte>, x: seq<byte>, y: seq<byte>)
    requires IsPrefixEnd(lo, end) && !Unbounded(lo) && Less(x, end)
    requires lo <= y && |y| > |x| && forall i :: |lo| <= i < |y| ==> y[i] == 0xFF
    ensures AtMost(x, y)
  {
    var n := |end| - 1;
    LessIffCommon(x, y);
    LessIffCommon(x, end);
    var k := Common(x, y);
    if k < |x| {
      assert forall i :: 0 <= i < n ==> y[i] == lo[i] == end[i];
      assert k > n ==> y[k] == 0xFF;
    }
  }

  /** With no upper bound there is no key after every key with the prefix. */
  lemma UnboundedHasNoEnd(lo: seq<byte>, x: seq<byte>)
    requires Unbounded(lo)
    ensures exists y: seq<byte> :: lo <= y && AtMost(x, y)
  {
    var tail: seq<byte> := seq(|x| + 1, _ => 0xFF);
    var y := lo + tail;
    assert Unbounded(y);
    LessIffCommon(x, y);
    assert AtMost(x, y);
  }
}
