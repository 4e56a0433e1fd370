/** The list of role names a user holds (src/auth/auth.c): one allocation with the
    names packed one after the other, each followed by a 0 byte, and a count. */
module RoleBlob {
  import opened Bytes

  // ------------------------------------------------------------------ reference

  /** The packed form of a list of names. */
  function Pack(names: seq<Name>): seq<byte> {
    if names == [] then [] else names[0] + [0] + Pack(names[1..])
  }

  ghost predicate AllNulFree(names: seq<Name>) {
    forall i :: 0 <= i < |names| ==> NulFree(names[i])
  }

  /** `mem` starts with the packed `names`. */
  ghost predicate Holds(mem: seq<byte>, names: seq<Name>) {
    && AllNulFree(names)
    && Pack(names) <= mem
  }

  lemma {:induction false} PackConcat(a: seq<Name>, b: seq<Name>)
    ensures Pack(a + b) == Pack(a) + Pack(b)
  {
    if a == [] {
      assert a + b == b;
    } else {
      assert (a + b)[1..] == a[1..] + b;
      PackConcat(a[1..], b);
    }
  }

  lemma PackSingle(name: Name)
    ensures Pack([name]) == name + [0]
  {
    assert [name][1..] == [];
    assert name + [0] + [] == name + [0];
  }

  lemma {:induction false} PackSnoc(names: seq<Name>, name: Name)
    ensures Pack(names + [name]) == Pack(names) + (name + [0])
  {
    PackConcat(names, [name]);
    PackSingle(name);
  }

  /** The blob around its `i`-th name. */
  lemma {:induction false} PackSplit(names: seq<Name>, i: nat)
    requires i < |names|
    ensures Pack(names[..i + 1]) == Pack(names[..i]) + (names[i] + [0])
    ensures Pack(names) == Pack(names[..i + 1]) + Pack(names[i + 1..])
  {
    var before, upTo, rest := names[..i], names[..i + 1], names[i + 1..];
    assert upTo == before + [names[i]];
    PackSnoc(before, names[i]);
    assert names == upTo + rest;
    PackConcat(upTo, rest);
  }

  lemma {:induction false} PackLength(names: seq<Name>)
    ensures |names| <= |Pack(names)|
  {
    if names != [] {
      PackLength(names[1..]);
    }
  }

  // --------------------------------------------------------- walking the memory

  ghost predicate Terminated(mem: seq<byte>, p: nat) {
    exists k :: p <= k < |mem| && mem[k] == 0
  }

  /** strlen of the string that starts at `p`. */
  function StrLen(mem: seq<byte>, p: nat): (n: nat)
    requires Terminated(mem, p)
    ensures p + n < |mem| && mem[p + n] == 0
    ensures forall i :: p <= i < p + n ==> mem[i] != 0
    decreases |mem| - p
  {
    if mem[p] == 0 then 0 else 1 + StrLen(mem, p + 1)
  }

  lemma StrLenAt(mem: seq<byte>, p: nat, name: Name)
    requires NulFree(name) && p + |name| < |mem|
    requires mem[p..p + |name|] == name && mem[p + |name|] == 0
    ensures Terminated(mem, p) && StrLen(mem, p) == |name|
  {
    assert forall i :: 0 <= i < |name| ==> mem[p + i] == mem[p..p + |name|][i] == name[i];
  }

  /** The `i`-th name sits at the length of the names before it. */
  lemma {:induction false} NameAt(mem: seq<byte>, names: seq<Name>, i: nat)
    requires Holds(mem, names) && i < |names|
    ensures var p := |Pack(names[..i])|;
            && p + |names[i]| < |Pack(names)|
            && mem[p..p + |names[i]|] == names[i]
            && Terminated(mem, p) && StrLen(mem, p) == |names[i]|
            && |Pack(names[..i + 1])| == p + |names[i]| + 1
  {
    PackSplit(names, i);
    var p, blob := |Pack(names[..i])|, Pack(names);
    assert blob == mem[..|blob|];
    assert mem[p..p + |names[i]|] == blob[p..p + |names[i]|] == names[i];
    assert mem[p + |names[i]|] == blob[p + |names[i]|] == 0;
    StrLenAt(mem, p, names[i]);
  }

  /** The first `n` names of a blob; short when the memory does not hold that many. */
  ghost function Unpack(mem: seq<byte>, n: nat): seq<Name>
    decreases n
  {
    if n == 0 || !Terminated(mem, 0) then []
    else
      var l := StrLen(mem, 0);
      [mem[..l]] + Unpack(mem[l + 1..], n - 1)
  }

  lemma {:induction false} UnpackPack(mem: seq<byte>, names: seq<Name>)
    requires Holds(mem, names)
    ensures Unpack(mem, |names|) == names
  {
    if names != [] {
      NameAt(mem, names, 0);
      assert names[..0] == [];
      var l := |names[0]|;
      assert mem[..l] == names[0];
      var blob := Pack(names);
      assert blob[l + 1..] == Pack(names[1..]);
      assert blob == mem[..|blob|];
      assert Pack(names[1..]) == mem[l + 1..][..|blob| - l - 1];
      UnpackPack(mem[l + 1..], names[1..]);
      assert names == [names[0]] + names[1..];
    }
  }

  lemma UnpackStep(mem: seq<byte>, n: nat)
    requires n > 0 && Terminated(mem, 0)
    ensures StrLen(mem, 0) < |mem|
    ensures Unpack(mem, n) == [mem[..StrLen(mem, 0)]] + Unpack(mem[StrLen(mem, 0) + 1..], n - 1)
  {
  }

  lemma {:induction false} UnpackHolds(mem: seq<byte>, n: nat)
    ensures Holds(mem, Unpack(mem, n))
    decreases n
  {
    hide Unpack, Pack, Terminated, StrLen, Holds;
    if n > 0 && Terminated(mem, 0) {
      UnpackStep(mem, n);
      var l := StrLen(mem, 0);
      UnpackHolds(mem[l + 1..], n - 1);
      OneMoreHeld(mem, l, Unpack(mem[l + 1..], n - 1));
    } else {
      NoneHeld(mem, n);
    }
  }

  lemma NoneHeld(mem: seq<byte>, n: nat)
    requires n == 0 || !Terminated(mem, 0)
    ensures Holds(mem, Unpack(mem, n))
  {
  }

  lemma OneMoreHeld(mem: seq<byte>, l: nat, rest: seq<Name>)
    requires l < |mem| && mem[l] == 0 && NulFree(mem[..l]) && Holds(mem[l + 1..], rest)
    ensures Holds(mem, [mem[..l]] + rest)
  {
    PackConcat([mem[..l]], rest);
    PackSingle(mem[..l]);
    hide Pack;
    assert mem == mem[..l] + [0] + mem[l + 1..];
  }

  // ----------------------------------------------------- where a walk reads

  /** The positions that a walk over `n` names reads, byte by byte, from `p` on inside the name that
      begins at `start`.  It ends after a name that `stop` accepts, and at its first position
      outside the allocation: what is read there, and after it, is not the blob's. */
  ghost function Reads(mem: seq<byte>, start: nat, p: nat, n: nat, stop: Name -> bool): seq<nat>
    requires start <= p <= |mem|
    decreases |mem| - p
  {
    if n == 0 then []
    else if p == |mem| then [p]
    else if mem[p] != 0 then [p] + Reads(mem, start, p + 1, n, stop)
    else if stop(mem[start..p]) then [p]
    else [p] + Reads(mem, p + 1, p + 1, n - 1, stop)
  }

  /** What ends a walk that goes to its last name. */
  predicate Never(name: Name) {
    false
  }

  /** Every position the walk reads lies inside the allocation. */
  ghost predicate Inside(mem: seq<byte>, n: nat, stop: Name -> bool) {
    Below(Reads(mem, 0, 0, n, stop), |mem|)
  }

  ghost predicate Below(places: seq<nat>, size: nat) {
    forall i :: 0 <= i < |places| ==> places[i] < size
  }

  ghost predicate Met(names: seq<Name>, stop: Name -> bool) {
    exists i :: 0 <= i < |names| && stop(names[i])
  }

  lemma {:induction false} ReadsFrom(mem: seq<byte>, start: nat, p: nat, n: nat, stop: Name -> bool)
    requires start <= p <= |mem| && NulFree(mem[start..p])
    ensures Below(Reads(mem, start, p, n, stop), |mem|)
            <==> |Unpack(mem[start..], n)| == n || Met(Unpack(mem[start..], n), stop)
    decreases |mem| - p
  {
    hide Unpack;
    if n == 0 || p == |mem| {
      assert p == |mem| ==> mem[start..p] == mem[start..];
      NoName(mem, start, n);
      assert n > 0 ==> Reads(mem, start, p, n, stop)[0] == |mem|;
    } else if mem[p] != 0 {
      hide Below, Met;
      assert mem[start..p + 1] == mem[start..p] + [mem[p]];
      BelowFirst(p, Reads(mem, start, p + 1, n, stop), |mem|);
      ReadsFrom(mem, start, p + 1, n, stop);
    } else {
      var rest := Unpack(mem[p + 1..], n - 1);
      NextName(mem, start, p, n);
      MetFirst(mem[start..p], rest, stop);
      assert mem[p + 1..p + 1] == [];
      BelowFirst(p, Reads(mem, p + 1, p + 1, n - 1, stop), |mem|);
      ReadsFrom(mem, p + 1, p + 1, n - 1, stop);
    }
  }

  lemma BelowFirst(p: nat, rest: seq<nat>, size: nat)
    ensures Below([p] + rest, size) <==> p < size && Below(rest, size)
  {
    var all := [p] + rest;
    assert all[0] == p && forall i :: 0 <= i < |rest| ==> rest[i] == all[i + 1];
  }

  lemma NoName(mem: seq<byte>, start: nat, n: nat)
    requires start <= |mem| && (n == 0 || NulFree(mem[start..]))
    ensures Unpack(mem[start..], n) == []
  {
  }

  lemma NextName(mem: seq<byte>, start: nat, p: nat, n: nat)
    requires start <= p < |mem| && NulFree(mem[start..p]) && mem[p] == 0 && n > 0
    ensures Unpack(mem[start..], n) == [mem[start..p]] + Unpack(mem[p + 1..], n - 1)
  {
    hide Unpack;
    var m := mem[start..];
    assert m[0..p - start] == mem[start..p] && m[p - start] == mem[p];
    StrLenAt(m, 0, mem[start..p]);
    UnpackStep(m, n);
    assert m[p - start + 1..] == mem[p + 1..];
  }

  lemma MetFirst(name: Name, rest: seq<Name>, stop: Name -> bool)
    ensures Met([name] + rest, stop) <==> stop(name) || Met(rest, stop)
  {
    var all := [name] + rest;
    if stop(name) { assert stop(all[0]); }
    if i :| 0 <= i < |rest| && stop(rest[i]) { assert stop(all[i + 1]); }
    if i :| 0 <= i < |all| && stop(all[i]) { assert i > 0 ==> rest[i - 1] == all[i]; }
  }

  /** A walk stays inside if and only if the blob has all the names the count says, or one that ends
      the walk among those it has. */
  lemma InsideIff(mem: seq<byte>, n: nat, stop: Name -> bool)
    ensures Inside(mem, n, stop) <==> |Unpack(mem, n)| == n || Met(Unpack(mem, n), stop)
  {
    assert mem[0..] == mem;
    ReadsFrom(mem, 0, 0, n, stop);
  }

  function Zeros(mem: seq<byte>): nat {
    if mem == [] then 0 else (if mem[0] == 0 then 1 else 0) + Zeros(mem[1..])
  }

  lemma {:induction false} ZerosSkip(mem: seq<byte>, l: nat)
    requires l <= |mem| && NulFree(mem[..l])
    ensures Zeros(mem) == Zeros(mem[l..])
  {
    if l > 0 {
      assert mem[0] == mem[..l][0] != 0;
      assert mem[1..][..l - 1] == mem[..l][1..] && mem[1..][l - 1..] == mem[l..];
      ZerosSkip(mem[1..], l - 1);
    } else {
      assert mem[0..] == mem;
    }
  }

  /** The names a blob has are as many as its zero bytes, up to the count. */
  lemma {:induction false} UnpackCount(mem: seq<byte>, n: nat)
    ensures |Unpack(mem, n)| == Min(n, Zeros(mem))
    decreases n
  {
    hide Zeros;
    if n > 0 && Terminated(mem, 0) {
      var l := StrLen(mem, 0);
      UnpackCount(mem[l + 1..], n - 1);
      ZerosSkip(mem, l);
      ZeroFirst(mem[l..]);
      assert mem[l..][1..] == mem[l + 1..];
    } else {
      if n > 0 { ZerosSkip(mem, |mem|); }
      NoZeros(mem[|mem|..]);
    }
  }

  lemma ZeroFirst(mem: seq<byte>)
    requires mem != [] && mem[0] == 0
    ensures Zeros(mem) == 1 + Zeros(mem[1..])
  {
  }

  lemma NoZeros(mem: seq<byte>)
    requires mem == []
    ensures Zeros(mem) == 0
  {
  }

  /** strlen, up to the first byte outside. */
  method Scan(mem: seq<byte>, p: nat) returns (l: Option<nat>)
    requires p <= |mem|
    ensures l == if Terminated(mem, p) then Some(StrLen(mem, p)) else None
  {
    var q := p;
    while q < |mem| && mem[q] != 0
      invariant p <= q <= |mem| && forall i :: p <= i < q ==> mem[i] != 0
    {
      q := q + 1;
    }
    if q == |mem| { return None; }
    assert mem[p..q] == mem[p..p + (q - p)];
    StrLenAt(mem, p, mem[p..q]);
    return Some(q - p);
  }

  /** The walk at `p`, with `n` names to go: the next name, or none. */
  lemma WalkStep(mem: seq<byte>, p: nat, n: nat)
    requires p <= |mem| && n > 0
    ensures !Terminated(mem, p) ==> Unpack(mem[p..], n) == []
    ensures Terminated(mem, p) ==>
              var l := StrLen(mem, p); Unpack(mem[p..], n) == [mem[p..p + l]] + Unpack(mem[p + l + 1..], n - 1)
  {
    hide Unpack;
    if Terminated(mem, p) {
      NextName(mem, p, p + StrLen(mem, p), n);
    } else {
      NoName(mem, p, n);
    }
  }

  /** A walk that nothing ends stays inside if and only if there are at least as many zero bytes as the
      count says. */
  lemma WalkInsideIff(mem: seq<byte>, n: nat)
    ensures Inside(mem, n, Never) <==> |Unpack(mem, n)| == n
    ensures Inside(mem, n, Never) <==> Zeros(mem) >= n
  {
    InsideIff(mem, n, Never);
    UnpackCount(mem, n);
  }

  lemma HoldsUnique(mem: seq<byte>, a: seq<Name>, b: seq<Name>)
    requires Holds(mem, a) && Holds(mem, b) && |a| == |b|
    ensures a == b
  {
    UnpackPack(mem, a);
    UnpackPack(mem, b);
  }

  /** cetcd_user_roles_total_len. */
  method TotalLen(mem: seq<byte>, n: nat, ghost names: seq<Name>) returns (total: nat)
    requires Holds(mem, names) && |names| == n
    ensures total == |Pack(names)|
  {
    total := 0;
    var p := 0;
    for i := 0 to n
      invariant p == total == |Pack(names[..i])|
    {
      NameAt(mem, names, i);
      var l := StrLen(mem, p);
      total := total + l + 1;
      p := p + l + 1;
    }
    assert names[..n] == names;
  }

  /** The search loop of grant, revoke and is_admin: the offset of `role`, if held. */
  method Find(mem: seq<byte>, n: nat, role: Name, ghost names: seq<Name>) returns (at: Option<nat>, ghost index: nat)
    requires Holds(mem, names) && |names| == n
    ensures at.None? <==> role !in names
    ensures at.Some? ==> index < n && names[index] == role && role !in names[..index]
    ensures at.Some? ==> at.value == |Pack(names[..index])|
  {
    var p := 0;
    for i := 0 to n
      invariant p == |Pack(names[..i])|
      invariant role !in names[..i]
    {
      NameAt(mem, names, i);
      var l := StrLen(mem, p);
      if l == |role| && mem[p..p + l] == role {
        return Some(p), i;
      }
      p := p + l + 1;
    }
    return None, 0;
  }

  // ------------------------------------------------------------- revoke's memmove

  function MemMove(mem: seq<byte>, dst: nat, src: nat, n: nat): (r: seq<byte>)
    requires dst + n <= |mem| && src + n <= |mem|
    ensures |r| == |mem|
  {
    mem[..dst] + mem[src..src + n] + mem[dst + n..]
  }

  function Without(names: seq<Name>, i: nat): seq<Name>
    requires i < |names|
  {
    names[..i] + names[i + 1..]
  }

  /** cetcd_auth_revoke_role moves `total - remove_len` bytes down to the removed name,
      counted from the name and not from the start of the blob.  `mem` is the memory from
      the start of the blob on, of which the blob owns the first part only. */
  function RevokeMove(mem: seq<byte>, at: nat, removeLen: nat, total: nat): seq<byte>
    requires removeLen <= total && at + total <= |mem|
  {
    MemMove(mem, at, at + removeLen, total - removeLen)
  }

  /** Whatever follows the blob in memory, the move leaves the remaining names packed in
      order at its start. */
  lemma {:induction false} RevokeMoveHolds(mem: seq<byte>, names: seq<Name>, i: nat)
    requires Holds(mem, names) && i < |names|
    requires |Pack(names[..i])| + |Pack(names)| <= |mem|
    ensures |names[i]| + 1 <= |Pack(names)|
    ensures Holds(RevokeMove(mem, |Pack(names[..i])|, |names[i]| + 1, |Pack(names)|), Without(names, i))
  {
    PackSplit(names, i);
    var before, behind := Pack(names[..i]), Pack(names[i + 1..]);
    PackConcat(names[..i], names[i + 1..]);
    MoveCloses(mem, before, names[i] + [0], behind);
    var rest := Without(names, i);
    forall j | 0 <= j < |rest| ensures NulFree(rest[j]) {
      assert rest[j] == if j < i then names[j] else names[j + 1];
    }
  }

  lemma MoveCloses(mem: seq<byte>, before: seq<byte>, gone: seq<byte>, behind: seq<byte>)
    requires before + gone + behind <= mem
    requires |before| + |before + gone + behind| <= |mem|
    ensures before + behind <= RevokeMove(mem, |before|, |gone|, |before + gone + behind|)
  {
    var blob := before + gone + behind;
    assert blob == mem[..|blob|];
    assert mem[..|before|] == before;
    assert mem[|before| + |gone|..|blob|] == behind;
  }

  /** The move reads `at + total` bytes from the start of the blob.  In a blob that its last
      grant sized exactly, they all belong to it exactly when the first name is the one
      removed. */
  lemma RevokeReadsInside(names: seq<Name>, i: nat, cap: nat)
    requires i < |names| && cap == |Pack(names)|
    ensures |Pack(names[..i])| + |Pack(names)| <= cap <==> i == 0
  {
    if i > 0 {
      PackLength(names[..i]);
    } else {
      assert names[..0] == [];
    }
  }

  /** Nothing outside the blob's `cap` bytes changes, whatever is there, exactly when the
      destination ends inside them. */
  lemma RevokeWritesInside(mem: seq<byte>, at: nat, removeLen: nat, total: nat)
    requires 0 < removeLen && at + removeLen <= total <= |mem|
    ensures (forall after: seq<byte> :: |after| == total ==>
               RevokeMove(mem + after, at, removeLen, total)[|mem|..] == after)
            <==> at + total - removeLen <= |mem|
  {
    if at + total - removeLen <= |mem| {
      forall after: seq<byte> | |after| == total
        ensures RevokeMove(mem + after, at, removeLen, total)[|mem|..] == after
      {
        var whole, cut := mem + after, at + total - removeLen;
        var moved := RevokeMove(whole, at, removeLen, total);
        assert moved[cut..] == whole[cut..];
        assert moved[|mem|..] == moved[cut..][|mem| - cut..] && whole[|mem|..] == whole[cut..][|mem| - cut..];
      }
    } else {
      // The byte after the blob receives the byte removeLen further on.
      var after: seq<byte> := seq(total, k => if k == 0 then 1 else 0);
      var moved := RevokeMove(mem + after, at, removeLen, total);
      assert moved[|mem|] == (mem + after)[|mem| + removeLen] == after[removeLen];
      assert moved[|mem|..][0] != after[0];
    }
  }
}
