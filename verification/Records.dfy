/** Files of back-to-back records, read until the first record that does not fit.
    Shared by the user and role blobs of the authentication store. */
module Records {
  import opened Bytes

  datatype Parsed<+T> = Stop | Next(value: T, rest: seq<byte>)

  /** The read loop: the records of `b` up to the first that cannot be parsed. */
  function DecodeAll<T>(parse: seq<byte> -> Parsed<T>, b: seq<byte>): seq<T>
    decreases |b|
  {
    match parse(b)
    case Stop => []
    case Next(v, rest) => if |rest| < |b| then [v] + DecodeAll(parse, rest) else []
  }

  ghost function EncodeAll<R>(enc: R -> seq<byte>, rs: seq<R>): seq<byte> {
    if rs == [] then [] else enc(rs[0]) + EncodeAll(enc, rs[1..])
  }

  ghost function MapAll<R, T>(norm: R -> T, rs: seq<R>): (ts: seq<T>)
    ensures |ts| == |rs| && forall i :: 0 <= i < |rs| ==> ts[i] == norm(rs[i])
  {
    if rs == [] then [] else [norm(rs[0])] + MapAll(norm, rs[1..])
  }

  /** Reading any cut `(enc(r) + rest)[..n]` gives `norm(r)` when the whole record is there
      and stops when it is not. */
  ghost predicate ReadsBack<R(!new), T>(
    ok: R -> bool, enc: R -> seq<byte>, norm: R -> T, parse: seq<byte> -> Parsed<T>)
  {
    && (forall r, rest, n | ok(r) && |enc(r)| <= n <= |enc(r) + rest| ::
          parse((enc(r) + rest)[..n]) == Next(norm(r), rest[..n - |enc(r)|]))
    && (forall r, rest, n | ok(r) && 0 <= n < |enc(r)| :: parse((enc(r) + rest)[..n]) == Stop)
    && parse([]) == Stop
    && (forall r | ok(r) :: enc(r) != [])
  }

  /** How many records lie wholly inside the first `n` bytes. */
  ghost function Whole<R>(enc: R -> seq<byte>, rs: seq<R>, n: nat): (k: nat)
    ensures k <= |rs|
    ensures |EncodeAll(enc, rs[..k])| <= n
    ensures k < |rs| ==> n < |EncodeAll(enc, rs[..k + 1])|
    decreases |rs|
  {
    if rs == [] then 0
    else if |enc(rs[0])| > n then
      assert rs[..1][1..] == [] && rs[..1][0] == rs[0];
      assert EncodeAll(enc, rs[..1]) == enc(rs[0]) + EncodeAll(enc, []);
      0
    else
      var k := Whole(enc, rs[1..], n - |enc(rs[0])|);
      assert rs[..k + 1][1..] == rs[1..][..k];
      assert k + 1 < |rs| ==> rs[..k + 2][1..] == rs[1..][..k + 1];
      k + 1
  }

  lemma ReadOne<R(!new), T>(
    ok: R -> bool, enc: R -> seq<byte>, norm: R -> T, parse: seq<byte> -> Parsed<T>, r: R, rest: seq<byte>, n: nat)
    requires ReadsBack(ok, enc, norm, parse) && ok(r) && n <= |enc(r) + rest|
    ensures parse((enc(r) + rest)[..n]) == if n < |enc(r)| then Stop else Next(norm(r), rest[..n - |enc(r)|])
    ensures enc(r) != [] && parse([]) == Stop
  {
  }

  /** Reading back any truncation yields exactly the records wholly contained in it. */
  lemma {:induction false} DecodeCut<R(!new), T>(
    ok: R -> bool, enc: R -> seq<byte>, norm: R -> T, parse: seq<byte> -> Parsed<T>, rs: seq<R>, n: nat)
    requires ReadsBack(ok, enc, norm, parse)
    requires forall i :: 0 <= i < |rs| ==> ok(rs[i])
    requires n <= |EncodeAll(enc, rs)|
    ensures DecodeAll(parse, EncodeAll(enc, rs)[..n]) == MapAll(norm, rs[..Whole(enc, rs, n)])
    decreases |rs|
  {
    var b := EncodeAll(enc, rs);
    if rs == [] {
      assert b[..n] == [] && parse([]) == Stop;
    } else {
      var r, rest := rs[0], EncodeAll(enc, rs[1..]);
      assert b == enc(r) + rest && ok(r);
      ReadOne(ok, enc, norm, parse, r, rest, n);
      hide ReadsBack;
      if n >= |enc(r)| {
        var m := n - |enc(r)|;
        DecodeCut(ok, enc, norm, parse, rs[1..], m);
        var k := Whole(enc, rs[1..], m);
        assert Whole(enc, rs, n) == k + 1;
        assert rs[..k + 1] == [r] + rs[1..][..k];
        assert MapAll(norm, rs[..k + 1]) == [norm(r)] + MapAll(norm, rs[1..][..k]);
      }
    }
  }

  lemma {:induction false} EncodePrefix<R>(enc: R -> seq<byte>, rs: seq<R>, k: nat)
    requires k <= |rs|
    ensures EncodeAll(enc, rs) == EncodeAll(enc, rs[..k]) + EncodeAll(enc, rs[k..])
    decreases k
  {
    if k == 0 {
      assert rs[0..] == rs && rs[..0] == [];
    } else {
      EncodePrefix(enc, rs[1..], k - 1);
      assert rs[1..][..k - 1] == rs[..k][1..] && rs[1..][k - 1..] == rs[k..];
    }
  }

  /** Reading back everything yields everything. */
  lemma {:induction false} DecodeWhole<R(!new), T>(
    ok: R -> bool, enc: R -> seq<byte>, norm: R -> T, parse: seq<byte> -> Parsed<T>, rs: seq<R>)
    requires ReadsBack(ok, enc, norm, parse)
    requires forall i :: 0 <= i < |rs| ==> ok(rs[i])
    ensures DecodeAll(parse, EncodeAll(enc, rs)) == MapAll(norm, rs)
  {
    var b := EncodeAll(enc, rs);
    DecodeCut(ok, enc, norm, parse, rs, |b|);
    assert b[..|b|] == b;
    var k := Whole(enc, rs, |b|);
    if k < |rs| {
      EncodePrefix(enc, rs, k + 1);
      assert false;
    }
    assert rs[..k] == rs;
  }

  // ------------------------------------------------------------- 16-bit lengths

  /** auth_save_u16_: low byte first, the value cut to 16 bits. */
  function U16(v: nat): (b: seq<byte>)
    ensures |b| == 2
  {
    [v % 256, v / 256 % 256]
  }

  function ReadU16(b: seq<byte>): nat
    requires |b| >= 2
  {
    b[0] as int + 256 * b[1] as int
  }

  /** Two bytes as a length, when they are there. */
  function GetU16(b: seq<byte>): Parsed<nat> {
    if |b| < 2 then Stop else Next(ReadU16(b), b[2..])
  }

  /** `k` bytes, when they are there. */
  function GetBytes(b: seq<byte>, k: nat): Parsed<seq<byte>> {
    if |b| < k then Stop else Next(b[..k], b[k..])
  }

  lemma TwoBytes(v: nat)
    ensures v % 65536 == v % 256 + 256 * (v / 256 % 256)
  {
    var q := v / 256;
    assert v == 256 * q + v % 256 && q == 256 * (q / 256) + q % 256;
    assert v == 65536 * (q / 256) + (256 * (q % 256) + v % 256);
  }

  lemma U16Reads(v: nat)
    ensures ReadU16(U16(v)) == v % 65536
  {
    TwoBytes(v);
  }

  lemma GetU16Cut(v: nat, rest: seq<byte>, n: nat)
    requires n <= 2 + |rest|
    ensures GetU16((U16(v) + rest)[..n]) == if n < 2 then Stop else Next(v % 65536, rest[..n - 2])
  {
    U16Reads(v);
    hide U16;
    if n >= 2 {
      var b := (U16(v) + rest)[..n];
      assert b[0] == U16(v)[0] && b[1] == U16(v)[1];
      assert b[2..] == rest[..n - 2];
    }
  }

  lemma GetBytesCut(a: seq<byte>, rest: seq<byte>, n: nat)
    requires n <= |a| + |rest|
    ensures GetBytes((a + rest)[..n], |a|) == if n < |a| then Stop else Next(a, rest[..n - |a|])
  {
    if n >= |a| {
      var b := (a + rest)[..n];
      assert b[..|a|] == a;
      assert b[|a|..] == rest[..n - |a|];
    }
  }

  /** A string of at most 65535 bytes after its length; a longer one is cut. */
  function SavedLen(n: nat): nat {
    Min(n, 0xFFFF)
  }

  function PutString(s: seq<byte>): (b: seq<byte>)
    ensures |b| == 2 + SavedLen(|s|)
  {
    U16(SavedLen(|s|)) + s[..SavedLen(|s|)]
  }

  function GetString(b: seq<byte>): Parsed<seq<byte>> {
    match GetU16(b)
    case Stop => Stop
    case Next(n, c) => GetBytes(c, n)
  }

  lemma GetStringCut(s: seq<byte>, rest: seq<byte>, n: nat)
    requires n <= |PutString(s)| + |rest|
    ensures GetString((PutString(s) + rest)[..n]) ==
            if n < |PutString(s)| then Stop else Next(s[..SavedLen(|s|)], rest[..n - |PutString(s)|])
  {
    hide GetU16, GetBytes, U16;
    var cut := s[..SavedLen(|s|)];
    assert PutString(s) + rest == U16(|cut|) + (cut + rest);
    GetU16Cut(|cut|, cut + rest, n);
    if n >= 2 {
      GetBytesCut(cut, rest, n - 2);
    }
  }

  /** The C string at the start of a character array. */
  function CStr(s: seq<byte>): seq<byte> {
    if s == [] || s[0] == 0 then [] else [s[0]] + CStr(s[1..])
  }

  lemma {:induction false} CStrOfNulFree(s: seq<byte>)
    requires NulFree(s)
    ensures CStr(s) == s
  {
    if s != [] {
      CStrOfNulFree(s[1..]);
    }
  }

  lemma {:induction false} CStrShort(s: seq<byte>)
    ensures |CStr(s)| <= |s| && NulFree(CStr(s))
  {
    if s != [] && s[0] != 0 {
      CStrShort(s[1..]);
    }
  }

  // ------------------------------------------------------ filling a hash map

  /** cetcd_hashmap_put of each pair in turn. */
  function PutAll<K, V>(m: map<K, V>, kvs: seq<(K, V)>): map<K, V>
    decreases |kvs|
  {
    if kvs == [] then m else PutAll(m[kvs[0].0 := kvs[0].1], kvs[1..])
  }

  lemma {:induction false} PutAllSnoc<K, V>(m: map<K, V>, kvs: seq<(K, V)>, kv: (K, V))
    ensures PutAll(m, kvs + [kv]) == PutAll(m, kvs)[kv.0 := kv.1]
    decreases |kvs|
  {
    if kvs == [] {
      assert ([] + [kv])[1..] == [];
    } else {
      assert (kvs + [kv])[1..] == kvs[1..] + [kv];
      PutAllSnoc(m[kvs[0].0 := kvs[0].1], kvs[1..], kv);
    }
  }

  /** Every entry of the result is old or one of the pairs, and every key is there. */
  lemma {:induction false} PutAllEntries<K, V>(m: map<K, V>, kvs: seq<(K, V)>, k: K)
    ensures k in PutAll(m, kvs) <==> k in m || exists i :: 0 <= i < |kvs| && kvs[i].0 == k
    ensures k in PutAll(m, kvs) ==>
              || (k in m && PutAll(m, kvs)[k] == m[k])
              || exists i :: 0 <= i < |kvs| && kvs[i] == (k, PutAll(m, kvs)[k])
    decreases |kvs|
  {
    if kvs != [] {
      var m' := m[kvs[0].0 := kvs[0].1];
      PutAllEntries(m', kvs[1..], k);
      assert forall i :: 0 <= i < |kvs| - 1 ==> kvs[1..][i] == kvs[i + 1];
      if k in PutAll(m', kvs[1..]) && k in m' && PutAll(m', kvs[1..])[k] == m'[k] && k == kvs[0].0 {
        assert kvs[0] == (k, PutAll(m, kvs)[k]);
      }
    }
  }

  /** The last pair with a key wins, and a key without one keeps what it had. */
  lemma {:induction false} PutAllLast<K, V>(m: map<K, V>, kvs: seq<(K, V)>, k: K, i: nat)
    requires i < |kvs| ==> kvs[i].0 == k
    requires forall j :: 0 <= j < |kvs| && (i < |kvs| ==> i < j) ==> kvs[j].0 != k
    ensures i < |kvs| ==> k in PutAll(m, kvs) && PutAll(m, kvs)[k] == kvs[i].1
    ensures i >= |kvs| ==> (k in PutAll(m, kvs) <==> k in m) && (k in m ==> PutAll(m, kvs)[k] == m[k])
    decreases |kvs|
  {
    if kvs != [] {
      var n := |kvs| - 1;
      assert kvs == kvs[..n] + [kvs[n]];
      PutAllSnoc(m, kvs[..n], kvs[n]);
      if i != n {
        PutAllLast(m, kvs[..n], k, i);
      }
    }
  }
}
