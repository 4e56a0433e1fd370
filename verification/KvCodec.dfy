/** The KeyValue message of the migration tool (cmd/cetcd-migrate/main.c): protobuf varints,
    the writer of write_kv_to_lmdb and the reader decode_etcd_kv. */
module KvCodec {
  import opened Bytes
  import B = Buffer

  type i64 = x: int | -0x8000_0000_0000_0000 <= x < 0x8000_0000_0000_0000

  datatype Kv = Kv(key: seq<byte>, modRevision: i64, version: i64, value: seq<byte>, createRevision: i64, lease: i64)

  const EMPTY: Kv := Kv([], 0, 0, [], 0, 0)

  /** The casts between int64_t and uint64_t. */
  function ToU64(x: i64): u64 {
    if x < 0 then x + TWO_64 else x
  }

  function ToI64(v: u64): i64 {
    if v < 0x8000_0000_0000_0000 then v else v - TWO_64
  }

  // -------------------------------------------------------------------------- varints

  function Varint(v: nat): (b: seq<byte>)
    ensures b != []
  {
    if v < 128 then [v] else [128 + v % 128] + Varint(v / 128)
  }

  /** encode_varint_buf: append the varint of `val`. */
  method AppendVarint(pb: seq<byte>, val: u64) returns (pb': seq<byte>)
    ensures pb' == pb + Varint(val)
  {
    var vb: seq<byte> := [];
    var v: nat := val;
    while v >= 0x80
      invariant vb + Varint(v) == Varint(val)
    {
      assert (vb + [128 + v % 128]) + Varint(v / 128) == vb + ([128 + v % 128] + Varint(v / 128));
      vb := vb + [128 + v % 128];
      v := v / 128;
    }
    vb := vb + [v];
    pb' := pb + vb;
  }

  datatype Read = Bad | Got(val: u64, rest: seq<byte>)

  /** The varint at the start of `b`, seven bits at a time from bit `shift` on; bits past 63
      are lost, and a tenth continuation is refused. */
  function ReadFrom(b: seq<byte>, shift: nat, acc: u64): Read
    decreases |b|
  {
    if b == [] then Bad
    else
      var acc' := (acc + b[0] % 128 * PowerOfTwo(shift)) % TWO_64;
      if b[0] < 128 then Got(acc', b[1..])
      else if shift + 7 > 63 then Bad
      else ReadFrom(b[1..], shift + 7, acc')
  }

  function ReadVarint(b: seq<byte>): Read {
    ReadFrom(b, 0, 0)
  }

  /** pb_read_varint: advances `pos`, also when it fails. */
  method VarintAt(data: seq<byte>, start: nat) returns (ok: bool, val: u64, pos: nat)
    requires start <= |data|
    ensures start <= pos <= |data|
    ensures ReadVarint(data[start..]) == if ok then Got(val, data[pos..]) else Bad
    ensures ok ==> start < pos
  {
    val, pos := 0, start;
    var shift := 0;
    while pos < |data|
      invariant start <= pos <= |data| && shift <= 63
      invariant ReadVarint(data[start..]) == ReadFrom(data[pos..], shift, val)
    {
      var b := data[pos];
      assert data[pos..][0] == b && data[pos..][1..] == data[pos + 1..];
      pos := pos + 1;
      val := (val + b % 128 * PowerOfTwo(shift)) % TWO_64;
      if b < 128 { return true, val, pos; }
      shift := shift + 7;
      if shift > 63 { return false, val, pos; }
    }
    assert data[pos..] == [];
    return false, val, pos;
  }

  lemma {:induction false} PowerSum(a: nat, b: nat)
    ensures PowerOfTwo(a + b) == PowerOfTwo(a) * PowerOfTwo(b)
  {
    if b > 0 {
      PowerSum(a, b - 1);
    }
  }

  lemma Power64()
    ensures PowerOfTwo(7) == 128 && PowerOfTwo(64) == TWO_64
  {
    assert PowerOfTwo(8) == 256;
    PowerSum(8, 8);
    PowerSum(16, 16);
    PowerSum(32, 32);
  }

  lemma {:induction false} PowerGrows(a: nat, b: nat)
    requires a <= b
    ensures PowerOfTwo(a) <= PowerOfTwo(b)
  {
    if a < b {
      PowerGrows(a, b - 1);
    }
  }

  lemma SplitSeven(v: nat, p: nat, q: nat)
    requires q == 128 * p
    ensures v * p == v % 128 * p + v / 128 * q
  {
    assert v == v % 128 + 128 * (v / 128);
    assert v * p == (v % 128) * p + (128 * (v / 128)) * p;
  }

  lemma ReadMore(b: seq<byte>, low: byte, tail: seq<byte>, shift: nat, acc: u64)
    requires low < 128 && b == [128 + low] + tail && shift + 7 <= 63
    requires acc + low * PowerOfTwo(shift) < TWO_64
    ensures ReadFrom(b, shift, acc) == ReadFrom(tail, shift + 7, acc + low * PowerOfTwo(shift))
  {
    hide PowerOfTwo;
    assert b[1..] == tail && b[0] % 128 == low;
    assert (acc + b[0] % 128 * PowerOfTwo(shift)) % TWO_64 == acc + low * PowerOfTwo(shift);
  }

  lemma ReadLast(b: seq<byte>, v: byte, rest: seq<byte>, shift: nat, acc: u64)
    requires v < 128 && b == [v] + rest && acc + v * PowerOfTwo(shift) < TWO_64
    ensures ReadFrom(b, shift, acc) == Got(acc + v * PowerOfTwo(shift), rest)
  {
    assert b[1..] == rest;
  }

  lemma MulGrows(a: nat, b: nat, p: nat)
    requires a <= b
    ensures a * p <= b * p
  {
  }

  lemma MoreFits(v: nat, p: nat, q: nat, acc: nat)
    requires v >= 128 && q == 128 * p && acc < p && acc + v * p < TWO_64
    ensures acc + v % 128 * p < q <= TWO_64
    ensures acc + v * p == acc + v % 128 * p + v / 128 * q
  {
    SplitSeven(v, p, q);
    MulGrows(0, v % 128, p);
    MulGrows(v % 128, 127, p);
    MulGrows(1, v / 128, q);
    Leftover(v % 128 * p, v / 128 * q, v * p, p, q, acc);
  }

  lemma Leftover(low: nat, high: nat, whole: nat, p: nat, q: nat, acc: nat)
    requires whole == low + high && low <= 127 * p && q <= high && q == 128 * p && acc < p && acc + whole < TWO_64
    ensures acc + low < q <= TWO_64
  {
  }

  lemma ShiftFits(shift: nat)
    requires PowerOfTwo(shift + 7) < TWO_64
    ensures shift + 7 <= 63
  {
    Power64();
    if shift + 7 >= 64 {
      PowerGrows(64, shift + 7);
    }
  }

  lemma NextScale(shift: nat)
    ensures PowerOfTwo(shift + 7) == 128 * PowerOfTwo(shift)
  {
    Power64();
    PowerSum(shift, 7);
  }

  lemma VarintStep(v: nat)
    ensures Varint(v) == if v < 128 then [v] else [128 + v % 128] + Varint(v / 128)
  {
  }

  /** `v` digits of weight 2^shift and more on top of `acc` make `total`. */
  ghost predicate Adds(v: nat, shift: nat, acc: nat, total: nat) {
    acc < PowerOfTwo(shift) && total == acc + v * PowerOfTwo(shift) && total < TWO_64
  }

  /** Reading back a varint that fits above `shift`. */
  lemma {:induction false} ReadsBack(v: nat, shift: nat, acc: nat, total: nat, rest: seq<byte>)
    requires shift <= 63 && Adds(v, shift, acc, total)
    ensures ReadFrom(Varint(v) + rest, shift, acc) == Got(total, rest)
    decreases v
  {
    hide PowerOfTwo, ReadFrom, Varint, Adds;
    var b := Varint(v) + rest;
    VarintStep(v);
    if v < 128 {
      assert b == [v] + rest;
      LastDigit(v, shift, acc, total, b, rest);
    } else {
      var tail := Varint(v / 128) + rest;
      assert b == [128 + v % 128] + tail by {
        assert ([128 + v % 128] + Varint(v / 128)) + rest == [128 + v % 128] + tail;
      }
      var low := NextDigit(v, shift, acc, total, b, tail);
      ReadsBack(v / 128, shift + 7, low, total, rest);
    }
  }

  lemma LastDigit(v: byte, shift: nat, acc: nat, total: nat, b: seq<byte>, rest: seq<byte>)
    requires v < 128 && Adds(v, shift, acc, total) && b == [v] + rest
    ensures acc < TWO_64 && total < TWO_64 && ReadFrom(b, shift, acc) == Got(total, rest)
  {
    ReadLast(b, v, rest, shift, acc);
  }

  lemma NextDigit(v: nat, shift: nat, acc: nat, total: nat, b: seq<byte>, tail: seq<byte>) returns (low: nat)
    requires v >= 128 && Adds(v, shift, acc, total) && b == [128 + v % 128] + tail
    ensures shift + 7 <= 63 && Adds(v / 128, shift + 7, low, total)
    ensures acc < TWO_64 && low < TWO_64 && ReadFrom(b, shift, acc) == ReadFrom(tail, shift + 7, low)
  {
    hide PowerOfTwo, ReadFrom;
    var p, q := PowerOfTwo(shift), PowerOfTwo(shift + 7);
    NextScale(shift);
    MoreFits(v, p, q, acc);
    MulGrows(1, v / 128, q);
    ShiftFits(shift);
    low := acc + v % 128 * p;
    ReadMore(b, v % 128, tail, shift, acc);
  }

  lemma VarintReadsBack(v: u64, rest: seq<byte>)
    ensures ReadVarint(Varint(v) + rest) == Got(v, rest)
  {
    ReadsBack(v, 0, 0, v, rest);
  }

  /** A negative number takes ten bytes, whatever its size. */
  lemma NegativeTakesTen(x: i64)
    requires x < 0
    ensures |Varint(ToU64(x))| == 10
  {
    assert Power128(5) == 0x8_0000_0000;
    assert Power128(9) == 0x8000_0000_0000_0000;
    assert Power128(10) == 0x40_0000_0000_0000_0000;
    VarintLength(ToU64(x), 10);
  }

  function Power128(k: nat): nat {
    if k == 0 then 1 else 128 * Power128(k - 1)
  }

  lemma {:induction false} VarintLength(v: nat, k: nat)
    requires k > 0 && (k == 1 || Power128(k - 1) <= v) && v < Power128(k)
    ensures |Varint(v)| == k
  {
    if k > 1 {
      VarintLength(v / 128, k - 1);
    }
  }

  lemma {:induction false} VarintShort(v: nat, k: nat)
    requires v < Power128(k) && k > 0
    ensures |Varint(v)| <= k
    decreases k
  {
    if v >= 128 {
      VarintShort(v / 128, k - 1);
    }
  }

  // ------------------------------------------------------------------------- reading

  /** How reading one field, or the message, ends.  `Wrapped` is a length so large that adding
      it to the position passes 2^64: what the C code does then is not modelled. */
  datatype Field = Malformed | Wrapped | Taken(kv: Kv, rest: seq<byte>)
  datatype Message = BadMessage | WrappedLength | Decoded(kv: Kv)

  /** A length and that many bytes, inside a message of `len` bytes that ends with `b`. */
  datatype Chunk = NoChunk | LengthWraps | Chunk(bytes: seq<byte>, rest: seq<byte>) | PastEnd

  function ReadChunk(b: seq<byte>, len: nat): Chunk {
    match ReadVarint(b)
    case Bad => NoChunk
    case Got(n, c) =>
      if len - |c| + n >= TWO_64 then LengthWraps
      else if n > |c| then PastEnd
      else Chunk(c[..n], c[n..])
  }

  /** One round of the loop of decode_etcd_kv. */
  function ReadField(b: seq<byte>, kv: Kv, len: nat): Field {
    match ReadVarint(b)
    case Bad => Malformed
    case Got(tag, c) =>
      var field, wire := tag / 8 % TWO_32, tag % 8;
      if field == 1 || field == 4 then
        if wire != 2 then Malformed
        else
          match ReadChunk(c, len)
          case NoChunk => Malformed
          case LengthWraps => Wrapped
          case PastEnd => Malformed
          case Chunk(bytes, rest) =>
            if field == 4 then Taken(kv.(value := bytes), rest)
            else if bytes == [] then Malformed
            else Taken(kv.(key := bytes), rest)
      else if field == 2 || field == 3 || field == 5 || field == 6 then
        if wire != 0 then Malformed
        else
          match ReadVarint(c)
          case Bad => Malformed
          case Got(v, rest) => Taken(SetNumber(kv, field, v), rest)
      else if wire == 0 then
        match ReadVarint(c)
        case Bad => Malformed
        case Got(_, rest) => Taken(kv, rest)
      else if wire == 2 then
        match ReadChunk(c, len)
        case NoChunk => Malformed
        case LengthWraps => Wrapped
        case PastEnd => Taken(kv, [])
        case Chunk(_, rest) => Taken(kv, rest)
      else Malformed
  }

  function SetNumber(kv: Kv, field: nat, v: u64): Kv {
    if field == 2 then kv.(modRevision := ToI64(v))
    else if field == 3 then kv.(version := ToI64(v))
    else if field == 5 then kv.(createRevision := ToI64(v))
    else kv.(lease := ToI64(v))
  }

  lemma {:induction false} ReadShrinks(b: seq<byte>, shift: nat, acc: u64)
    ensures ReadFrom(b, shift, acc).Got? ==> |ReadFrom(b, shift, acc).rest| < |b|
    decreases |b|
  {
    if b != [] && b[0] >= 128 && shift + 7 <= 63 {
      ReadShrinks(b[1..], shift + 7, (acc + b[0] % 128 * PowerOfTwo(shift)) % TWO_64);
    }
  }

  lemma FieldShrinks(b: seq<byte>, kv: Kv, len: nat)
    ensures ReadField(b, kv, len).Taken? ==> |ReadField(b, kv, len).rest| < |b|
  {
    hide ReadFrom;
    ReadShrinks(b, 0, 0);
    if ReadVarint(b).Got? {
      ReadShrinks(ReadVarint(b).rest, 0, 0);
    }
  }

  function DecodeFrom(b: seq<byte>, kv: Kv, len: nat): Message
    decreases |b|
  {
    if b == [] then Decoded(kv)
    else
      FieldShrinks(b, kv, len);
      match ReadField(b, kv, len)
      case Malformed => BadMessage
      case Wrapped => WrappedLength
      case Taken(kv', rest) => DecodeFrom(rest, kv', len)
  }

  function Decode(b: seq<byte>): Message {
    DecodeFrom(b, EMPTY, |b|)
  }

  /** A length-delimited field body at `start`. */
  method ChunkAt(data: seq<byte>, start: nat) returns (c: Chunk, pos: nat)
    requires start <= |data|
    ensures c == ReadChunk(data[start..], |data|)
    ensures c.Chunk? ==> start < pos <= |data| && c.rest == data[pos..]
  {
    hide ReadVarint;
    var ok, n, p := VarintAt(data, start);
    if !ok { return NoChunk, start; }
    assert |data| - |data[p..]| == p;
    if p + n >= TWO_64 { return LengthWraps, p; }
    if p + n > |data| { return PastEnd, p; }
    assert data[p..][..n] == data[p..p + n] && data[p..][n..] == data[p + n..];
    return Chunk(data[p..p + n], data[p + n..]), p + n;
  }

  /** One round of the loop, by position. */
  method FieldAt(data: seq<byte>, start: nat, kv: Kv) returns (f: Field, pos: nat)
    requires start < |data|
    ensures f == ReadField(data[start..], kv, |data|)
    ensures f.Taken? ==> start < pos <= |data| && f.rest == data[pos..]
  {
    hide ReadVarint, ReadChunk;
    var ok, tag, p := VarintAt(data, start);
    if !ok { return Malformed, p; }
    var field, wire := tag / 8 % TWO_32, tag % 8;
    if field == 1 || field == 4 {
      if wire != 2 { return Malformed, p; }
      var c, q := ChunkAt(data, p);
      match c {
        case NoChunk => return Malformed, p;
        case PastEnd => return Malformed, p;
        case LengthWraps => return Wrapped, p;
        case Chunk(bytes, rest) =>
          if field == 4 { return Taken(kv.(value := bytes), rest), q; }
          if bytes == [] { return Malformed, q; }
          return Taken(kv.(key := bytes), rest), q;
      }
    }
    if field == 2 || field == 3 || field == 5 || field == 6 {
      if wire != 0 { return Malformed, p; }
      var ok', v, q := VarintAt(data, p);
      if !ok' { return Malformed, q; }
      return Taken(SetNumber(kv, field, v), data[q..]), q;
    }
    if wire == 0 {
      var ok', _, q := VarintAt(data, p);
      if !ok' { return Malformed, q; }
      return Taken(kv, data[q..]), q;
    }
    if wire == 2 {
      var c, q := ChunkAt(data, p);
      match c {
        case NoChunk => return Malformed, p;
        case LengthWraps => return Wrapped, p;
        case PastEnd =>
          assert data[|data|..] == [];
          return Taken(kv, []), |data|;
        case Chunk(_, rest) => return Taken(kv, rest), q;
      }
    }
    return Malformed, p;
  }

  /** decode_etcd_kv. */
  method DecodeKv(data: seq<byte>) returns (r: Message)
    ensures r == Decode(data)
  {
    hide ReadField;
    var kv, pos := EMPTY, 0;
    assert data[0..] == data;
    while pos < |data|
      invariant pos <= |data|
      invariant Decode(data) == DecodeFrom(data[pos..], kv, |data|)
    {
      var f, next := FieldAt(data, pos, kv);
      match f {
        case Malformed => return BadMessage;
        case Wrapped => return WrappedLength;
        case Taken(kv', _) => kv, pos := kv', next;
      }
    }
    return Decoded(kv);
  }

  // ------------------------------------------------------------------------- writing

  /** A field as it stands in a message: the six known ones, and ones the reader does not
      know. */
  datatype Item =
    | Key(bytes: seq<byte>)
    | Value(bytes: seq<byte>)
    | Number(field: nat, num: i64)
    | OtherNumber(tag: nat, v: u64)
    | OtherBytes(tag: nat, bytes: seq<byte>)

  predicate ItemOk(it: Item) {
    match it
    case Key(b) => b != []
    case Value(_) => true
    case Number(f, _) => f in {2, 3, 5, 6}
    case OtherNumber(t, _) => t < TWO_64 && t % 8 == 0 && t / 8 % TWO_32 !in {1, 2, 3, 4, 5, 6}
    case OtherBytes(t, _) => t < TWO_64 && t % 8 == 2 && t / 8 % TWO_32 !in {1, 2, 3, 4, 5, 6}
  }

  function Tag(it: Item): nat {
    match it
    case Key(_) => 0x0A
    case Value(_) => 0x22
    case Number(f, _) => f * 8
    case OtherNumber(t, _) => t
    case OtherBytes(t, _) => t
  }

  function Body(it: Item): seq<byte> {
    match it
    case Key(b) => Varint(|b|) + b
    case Value(b) => Varint(|b|) + b
    case Number(_, v) => Varint(ToU64(v))
    case OtherNumber(_, v) => Varint(v)
    case OtherBytes(_, b) => Varint(|b|) + b
  }

  function EmitItem(it: Item): seq<byte> {
    Varint(Tag(it)) + Body(it)
  }

  function Emit(items: seq<Item>): seq<byte> {
    if items == [] then [] else EmitItem(items[0]) + Emit(items[1..])
  }

  /** What a field does to the message read so far. */
  function ApplyItem(kv: Kv, it: Item): Kv {
    match it
    case Key(b) => kv.(key := b)
    case Value(b) => kv.(value := b)
    case Number(f, v) =>
      if f == 2 then kv.(modRevision := v)
      else if f == 3 then kv.(version := v)
      else if f == 5 then kv.(createRevision := v)
      else kv.(lease := v)
    case OtherNumber(_, _) => kv
    case OtherBytes(_, _) => kv
  }

  function ApplyAll(kv: Kv, items: seq<Item>): Kv
    decreases |items|
  {
    if items == [] then kv else ApplyAll(ApplyItem(kv, items[0]), items[1..])
  }

  /** The fields write_kv_to_lmdb emits: the lease only when it is set. */
  function ItemsOf(kv: Kv): seq<Item> {
    [Key(kv.key), Number(2, kv.modRevision), Number(3, kv.version), Value(kv.value), Number(5, kv.createRevision)]
    + if kv.lease != 0 then [Number(6, kv.lease)] else []
  }

  function Encoded(kv: Kv): seq<byte> {
    Emit(ItemsOf(kv))
  }

  // ------------------------------------------------------------------------ the encoder

  /** What the encoder appends for one field, piece by piece. */
  function PiecesOf(it: Item): seq<seq<byte>> {
    match it
    case Key(bytes) => [Varint(Tag(it)), Varint(|bytes|), bytes]
    case Value(bytes) => [Varint(Tag(it)), Varint(|bytes|), bytes]
    case Number(_, v) => [Varint(Tag(it)), Varint(ToU64(v))]
    case OtherNumber(_, v) => [Varint(Tag(it)), Varint(v)]
    case OtherBytes(_, bytes) => [Varint(Tag(it)), Varint(|bytes|), bytes]
  }

  function Pieces(items: seq<Item>): seq<seq<byte>> {
    if items == [] then [] else PiecesOf(items[0]) + Pieces(items[1..])
  }

  function Concat(ps: seq<seq<byte>>): seq<byte> {
    if ps == [] then [] else ps[0] + Concat(ps[1..])
  }

  /** Whether the buffer can grow at append `i`; past the end of the list it can. */
  function Grows(grows: seq<bool>, i: nat): bool {
    i < |grows| ==> grows[i]
  }

  /** The buffer after these appends, whose results nobody looks at. */
  function Save(b: B.State, ps: seq<seq<byte>>, i: nat, grows: seq<bool>): B.State
    decreases |ps|
  {
    if ps == [] then b else Save(B.Step(b, B.Append(ps[0], Grows(grows, i))), ps[1..], i + 1, grows)
  }

  /** No append failed. */
  predicate AllKept(b: B.State, ps: seq<seq<byte>>, i: nat, grows: seq<bool>)
    decreases |ps|
  {
    ps != [] ==>
      && B.Appended(b, ps[0], Grows(grows, i)).Some?
      && AllKept(B.Step(b, B.Append(ps[0], Grows(grows, i))), ps[1..], i + 1, grows)
  }

  /** The record that is stored for an entry. */
  function Saved(kv: Kv, grows: seq<bool>): seq<byte> {
    Save(B.EMPTY, Pieces(ItemsOf(kv)), 0, grows).contents
  }

  predicate Undamaged(kv: Kv, grows: seq<bool>) {
    AllKept(B.EMPTY, Pieces(ItemsOf(kv)), 0, grows)
  }

  lemma {:induction false} ConcatConcat(a: seq<seq<byte>>, b: seq<seq<byte>>)
    ensures Concat(a + b) == Concat(a) + Concat(b)
  {
    if a == [] {
      assert a + b == b;
    } else {
      assert (a + b)[1..] == a[1..] + b;
      ConcatConcat(a[1..], b);
    }
  }

  lemma TwoPieces(a: seq<byte>, b: seq<byte>)
    ensures Concat([a, b]) == a + b
  {
    var ps: seq<seq<byte>> := [a, b];
    var last := ps[1..];
    assert last == [b] && last[1..] == [];
    assert Concat(last) == b + [] == b;
  }

  lemma PiecesJoin(it: Item)
    ensures Concat(PiecesOf(it)) == EmitItem(it)
  {
    hide Varint, Tag;
    var ps := PiecesOf(it);
    if |ps| == 2 {
      TwoPieces(ps[0], ps[1]);
    } else {
      TwoPieces(ps[1], ps[2]);
      assert ps[1..] == [ps[1], ps[2]];
    }
  }

  /** The pieces together are the message. */
  lemma {:induction false} PiecesAreEmitted(items: seq<Item>)
    ensures Concat(Pieces(items)) == Emit(items)
  {
    if items != [] {
      ConcatConcat(PiecesOf(items[0]), Pieces(items[1..]));
      PiecesJoin(items[0]);
      PiecesAreEmitted(items[1..]);
    }
  }

  lemma {:induction false} SaveConcat(b: B.State, x: seq<seq<byte>>, y: seq<seq<byte>>, i: nat, grows: seq<bool>)
    ensures Save(b, x + y, i, grows) == Save(Save(b, x, i, grows), y, i + |x|, grows)
    decreases |x|
  {
    if x == [] {
      assert x + y == y;
    } else {
      assert (x + y)[1..] == x[1..] + y;
      SaveConcat(B.Step(b, B.Append(x[0], Grows(grows, i))), x[1..], y, i + 1, grows);
    }
  }

  /** A failed append leaves its piece out, so the record is whole exactly when none failed. */
  lemma {:induction false} SaveIs(b: B.State, ps: seq<seq<byte>>, i: nat, grows: seq<bool>)
    ensures var s := Save(b, ps, i, grows);
            && |s.contents| <= |b.contents| + |Concat(ps)|
            && (AllKept(b, ps, i, grows) ==> s.contents == b.contents + Concat(ps))
            && (|s.contents| == |b.contents| + |Concat(ps)| ==> AllKept(b, ps, i, grows))
    decreases |ps|
  {
    if ps != [] {
      var n := B.Step(b, B.Append(ps[0], Grows(grows, i)));
      SaveIs(n, ps[1..], i + 1, grows);
      assert n.contents == b.contents + ps[0] || (n == b && ps[0] != []) by { hide *; PutIs(b, ps[0], Grows(grows, i)); }
      assert b.contents + (ps[0] + Concat(ps[1..])) == b.contents + ps[0] + Concat(ps[1..]);
      PutIs(b, ps[0], Grows(grows, i));
    } else {
      assert b.contents + [] == b.contents;
    }
  }

  lemma PutIs(b: B.State, bytes: seq<byte>, ok: bool)
    ensures var n := B.Step(b, B.Append(bytes, ok));
            if B.Appended(b, bytes, ok).Some? then n.contents == b.contents + bytes else n == b && bytes != []
  {
    hide B.NewCap;
    if bytes == [] { assert b.contents + bytes == b.contents; }
  }

  /** The stored record is the message if and only if no growth of the buffer failed. */
  lemma SavedExact(kv: Kv, grows: seq<bool>)
    ensures Saved(kv, grows) == Encoded(kv) <==> Undamaged(kv, grows)
  {
    var ps := Pieces(ItemsOf(kv));
    PiecesAreEmitted(ItemsOf(kv));
    hide Pieces, ItemsOf, Concat, Emit;
    SaveIs(B.EMPTY, ps, 0, grows);
    assert [] + Concat(ps) == Concat(ps);
  }

  /** If memory never runs out and the message has at most 2^63 bytes, none fails. */
  lemma {:induction false} RoomForAll(b: B.State, ps: seq<seq<byte>>, i: nat, grows: seq<bool>)
    requires (forall j :: 0 <= j < |grows| ==> grows[j]) && |b.contents| + |Concat(ps)| <= 0x8000_0000_0000_0000
    ensures AllKept(b, ps, i, grows)
    decreases |ps|
  {
    if ps != [] {
      if ps[0] != [] { RoomFor(if b.cap == 0 then 16 else b.cap, |b.contents| + |ps[0]|); }
      PutIs(b, ps[0], true);
      RoomForAll(B.Step(b, B.Append(ps[0], true)), ps[1..], i + 1, grows);
    }
  }

  lemma {:induction false} RoomFor(cap: nat, want: nat)
    requires cap > 0 && want <= 0x8000_0000_0000_0000
    ensures B.Doubled(cap, want).Some?
    decreases want - cap
  {
    if cap < want { RoomFor(2 * cap, want); }
  }

  lemma Undamaged63(kv: Kv, grows: seq<bool>)
    requires (forall j :: 0 <= j < |grows| ==> grows[j]) && |Encoded(kv)| <= 0x8000_0000_0000_0000
    ensures Undamaged(kv, grows)
  {
    PiecesAreEmitted(ItemsOf(kv));
    hide Pieces, ItemsOf, Concat, Emit;
    RoomForAll(B.EMPTY, Pieces(ItemsOf(kv)), 0, grows);
  }

  /** If the very first growth fails, the record loses its first byte, and nothing notices. */
  lemma FirstGrowthFails(kv: Kv)
    ensures !Undamaged(kv, [false]) && Saved(kv, [false]) != Encoded(kv)
  {
    SavedExact(kv, [false]);
    var ps := Pieces(ItemsOf(kv));
    assert ItemsOf(kv)[0] == Key(kv.key);
    assert ps[0] == Varint(Tag(Key(kv.key)));
    hide Varint, Pieces, ItemsOf, Encoded;
    assert B.Appended(B.EMPTY, ps[0], false).None?;
  }

  lemma SaveTwo(b: B.State, x: seq<byte>, y: seq<byte>, i: nat, grows: seq<bool>)
    ensures Save(b, [x, y], i, grows) == B.Step(B.Step(b, B.Append(x, Grows(grows, i))), B.Append(y, Grows(grows, i + 1)))
  {
    var ps: seq<seq<byte>> := [x, y];
    var last := ps[1..];
    assert last == [y] && last[1..] == [];
    var n := B.Step(b, B.Append(x, Grows(grows, i)));
    assert Save(n, last, i + 1, grows) == Save(B.Step(n, B.Append(y, Grows(grows, i + 1))), [], i + 2, grows);
  }

  /** A tag byte and a number, as for fields 2, 3, 5 and 6; `i` appends came before. */
  method AppendNumber(b: B.State, i: nat, grows: seq<bool>, field: nat, v: i64) returns (b': B.State)
    requires field in {2, 3, 5, 6}
    ensures b' == Save(b, PiecesOf(Number(field, v)), i, grows)
  {
    assert Varint(field * 8) == [field * 8];
    ghost var ps := PiecesOf(Number(field, v));
    b' := B.Step(b, B.Append([field * 8], Grows(grows, i)));
    var vb := AppendVarint([], ToU64(v));
    assert [] + Varint(ToU64(v)) == Varint(ToU64(v));
    hide Varint;
    b' := B.Step(b', B.Append(vb, Grows(grows, i + 1)));
    SaveTwo(b, ps[0], vb, i, grows);
  }

  /** A tag byte, a length and bytes, as for fields 1 and 4. */
  method AppendBytes(b: B.State, i: nat, grows: seq<bool>, tag: byte, bytes: seq<byte>) returns (b': B.State)
    requires tag < 128 && |bytes| < TWO_64
    ensures b' == Save(b, [[tag], Varint(|bytes|), bytes], i, grows)
  {
    ghost var ps := [[tag], Varint(|bytes|), bytes];
    b' := B.Step(b, B.Append([tag], Grows(grows, i)));
    var vb := AppendVarint([], |bytes|);
    assert [] + Varint(|bytes|) == Varint(|bytes|);
    hide Varint;
    b' := B.Step(b', B.Append(vb, Grows(grows, i + 1)));
    b' := B.Step(b', B.Append(bytes, Grows(grows, i + 2)));
    SaveTwo(B.Step(b, B.Append([tag], Grows(grows, i))), vb, bytes, i + 1, grows);
    assert ps[1..] == [vb, bytes];
  }

  lemma BytesFields(kv: Kv)
    ensures PiecesOf(Key(kv.key)) == [[0x0A], Varint(|kv.key|), kv.key]
    ensures PiecesOf(Value(kv.value)) == [[0x22], Varint(|kv.value|), kv.value]
  {
    assert Varint(0x0A) == [0x0A] && Varint(0x22) == [0x22];
  }

  lemma SaveItem(b: B.State, items: seq<Item>, i: nat, grows: seq<bool>)
    requires items != []
    ensures Save(b, Pieces(items), i, grows)
            == Save(Save(b, PiecesOf(items[0]), i, grows), Pieces(items[1..]), i + |PiecesOf(items[0])|, grows)
  {
    SaveConcat(b, PiecesOf(items[0]), Pieces(items[1..]), i, grows);
  }

  /** Field after field, in the order of the encoder. */
  lemma FieldsOf(kv: Kv)
    ensures var items := ItemsOf(kv);
            && |items| == (if kv.lease != 0 then 6 else 5)
            && items[0] == Key(kv.key) && items[1] == Number(2, kv.modRevision) && items[2] == Number(3, kv.version)
            && items[3] == Value(kv.value) && items[4] == Number(5, kv.createRevision)
            && (kv.lease != 0 ==> items[5] == Number(6, kv.lease))
    ensures |PiecesOf(Key(kv.key))| == 3 && |PiecesOf(Value(kv.value))| == 3
  {
  }

  lemma SaveFields(kv: Kv, grows: seq<bool>, k: B.State, m: B.State, r: B.State, v: B.State, c: B.State, l: B.State)
    requires k == Save(B.EMPTY, PiecesOf(Key(kv.key)), 0, grows)
    requires m == Save(k, PiecesOf(Number(2, kv.modRevision)), 3, grows)
    requires r == Save(m, PiecesOf(Number(3, kv.version)), 5, grows)
    requires v == Save(r, PiecesOf(Value(kv.value)), 7, grows)
    requires c == Save(v, PiecesOf(Number(5, kv.createRevision)), 10, grows)
    requires l == if kv.lease != 0 then Save(c, PiecesOf(Number(6, kv.lease)), 12, grows) else c
    ensures l == Save(B.EMPTY, Pieces(ItemsOf(kv)), 0, grows)
  {
    hide PiecesOf, Pieces, Save, ItemsOf;
    FieldsOf(kv);
    var items := ItemsOf(kv);
    assert items[0..] == items;
    SaveAt(B.EMPTY, items, 0, 0, grows);
    SaveNumber(k, items, 1, 3, grows);
    SaveNumber(m, items, 2, 5, grows);
    SaveAt(r, items, 3, 7, grows);
    SaveNumber(v, items, 4, 10, grows);
    SaveLease(kv, c, l, grows);
  }

  lemma SaveNumber(b: B.State, items: seq<Item>, n: nat, i: nat, grows: seq<bool>)
    requires n < |items| && items[n].Number?
    ensures Save(b, Pieces(items[n..]), i, grows)
         == Save(Save(b, PiecesOf(items[n]), i, grows), Pieces(items[n + 1..]), i + 2, grows)
  {
    hide PiecesOf, Pieces, Save;
    TwoLong(items[n]);
    SaveAt(b, items, n, i, grows);
  }

  lemma SaveLease(kv: Kv, c: B.State, l: B.State, grows: seq<bool>)
    requires l == if kv.lease != 0 then Save(c, PiecesOf(Number(6, kv.lease)), 12, grows) else c
    ensures l == Save(c, Pieces(ItemsOf(kv)[5..]), 12, grows)
  {
    hide PiecesOf, Pieces, Save, ItemsOf;
    FieldsOf(kv);
    var items := ItemsOf(kv);
    if kv.lease != 0 { SaveNumber(c, items, 5, 12, grows); }
    assert items[|items|..] == [];
    SaveNothing(l, if kv.lease != 0 then 14 else 12, grows);
  }

  lemma SaveAt(b: B.State, items: seq<Item>, n: nat, i: nat, grows: seq<bool>)
    requires n < |items|
    ensures Save(b, Pieces(items[n..]), i, grows)
         == Save(Save(b, PiecesOf(items[n]), i, grows), Pieces(items[n + 1..]), i + |PiecesOf(items[n])|, grows)
  {
    hide PiecesOf, Pieces, Save;
    SaveItem(b, items[n..], i, grows);
    assert items[n..][1..] == items[n + 1..];
  }

  lemma TwoLong(it: Item)
    requires it.Number?
    ensures |PiecesOf(it)| == 2
  {
  }

  lemma SaveNothing(b: B.State, i: nat, grows: seq<bool>)
    ensures Save(b, Pieces([]), i, grows) == b
  {
  }

  /** The encoder of write_kv_to_lmdb, which looks at no append's result. */
  method Encode(kv: Kv, grows: seq<bool>) returns (pb: seq<byte>)
    requires |kv.key| < TWO_64 && |kv.value| < TWO_64
    ensures pb == Saved(kv, grows)
  {
    BytesFields(kv);
    hide Varint, Pieces, Save, PiecesOf;
    var k := AppendBytes(B.EMPTY, 0, grows, 0x0A, kv.key);
    var m := AppendNumber(k, 3, grows, 2, kv.modRevision);
    var r := AppendNumber(m, 5, grows, 3, kv.version);
    var v := AppendBytes(r, 7, grows, 0x22, kv.value);
    var c := AppendNumber(v, 10, grows, 5, kv.createRevision);
    var l := c;
    if kv.lease != 0 {
      l := AppendNumber(c, 12, grows, 6, kv.lease);
    }
    SaveFields(kv, grows, k, m, r, v, c, l);
    pb := l.contents;
  }

  // ---------------------------------------------------------------------- round trip

  lemma ChunkReadsBack(bytes: seq<byte>, rest: seq<byte>, len: nat)
    requires |Varint(|bytes|) + bytes + rest| <= len < TWO_64
    ensures ReadChunk(Varint(|bytes|) + bytes + rest, len) == Chunk(bytes, rest)
  {
    assert Varint(|bytes|) + bytes + rest == Varint(|bytes|) + (bytes + rest);
    VarintReadsBack(|bytes|, bytes + rest);
    var c := bytes + rest;
    assert c[..|bytes|] == bytes && c[|bytes|..] == rest;
  }

  lemma SignedBack(x: i64)
    ensures ToI64(ToU64(x)) == x
  {
  }

  /** Reading one emitted field: its effect, and the bytes after it. */
  lemma FieldReadsBack(it: Item, kv: Kv, rest: seq<byte>, len: nat)
    requires ItemOk(it) && |EmitItem(it) + rest| <= len < TWO_64
    ensures ReadField(EmitItem(it) + rest, kv, len) == Taken(ApplyItem(kv, it), rest)
  {
    hide Varint, ReadVarint, ReadChunk;
    var tail := Body(it) + rest;
    assert EmitItem(it) + rest == Varint(Tag(it)) + tail;
    VarintReadsBack(Tag(it), tail);
    match it {
      case Key(b) => ChunkReadsBack(b, rest, len);
      case Value(b) => ChunkReadsBack(b, rest, len);
      case Number(_, v) => VarintReadsBack(ToU64(v), rest); SignedBack(v);
      case OtherNumber(_, v) => VarintReadsBack(v, rest);
      case OtherBytes(_, b) => ChunkReadsBack(b, rest, len);
    }
  }

  /** Any sequence of fields in any order, with unknown fields anywhere, reads as its
      last-wins effect. */
  lemma {:induction false} DecodeEmitted(items: seq<Item>, kv: Kv, len: nat)
    requires forall i :: 0 <= i < |items| ==> ItemOk(items[i])
    requires |Emit(items)| <= len < TWO_64
    ensures DecodeFrom(Emit(items), kv, len) == Decoded(ApplyAll(kv, items))
    decreases |items|
  {
    hide ReadField, EmitItem, ApplyItem;
    if items != [] {
      var it, rest := items[0], Emit(items[1..]);
      FieldReadsBack(it, kv, rest, len);
      EmitNonempty(it);
      assert forall i :: 0 <= i < |items| - 1 ==> items[1..][i] == items[i + 1];
      DecodeEmitted(items[1..], ApplyItem(kv, it), len);
    }
  }

  lemma EmitNonempty(it: Item)
    ensures EmitItem(it) != []
  {
  }

  predicate Known(it: Item) {
    it.Key? || it.Value? || it.Number?
  }

  function KnownOnly(items: seq<Item>): seq<Item> {
    if items == [] then []
    else if Known(items[0]) then [items[0]] + KnownOnly(items[1..])
    else KnownOnly(items[1..])
  }

  lemma {:induction false} UnknownIgnored(items: seq<Item>, kv: Kv)
    ensures ApplyAll(kv, items) == ApplyAll(kv, KnownOnly(items))
    decreases |items|
  {
    if items != [] {
      UnknownIgnored(items[1..], ApplyItem(kv, items[0]));
      if Known(items[0]) {
        assert KnownOnly(items)[1..] == KnownOnly(items[1..]);
      }
    }
  }

  lemma ItemsRebuild(kv: Kv)
    ensures ApplyAll(EMPTY, ItemsOf(kv)) == kv
  {
    var items := ItemsOf(kv);
    var five := [Key(kv.key), Number(2, kv.modRevision), Number(3, kv.version), Value(kv.value), Number(5, kv.createRevision)];
    var kv1 := EMPTY.(key := kv.key);
    var kv2 := kv1.(modRevision := kv.modRevision);
    var kv3 := kv2.(version := kv.version);
    var kv4 := kv3.(value := kv.value);
    var kv5 := kv4.(createRevision := kv.createRevision);
    assert ApplyAll(EMPTY, items) == ApplyAll(kv1, items[1..]);
    assert ApplyAll(kv1, items[1..]) == ApplyAll(kv2, items[2..]) by { assert items[1..][1..] == items[2..]; }
    assert ApplyAll(kv2, items[2..]) == ApplyAll(kv3, items[3..]) by { assert items[2..][1..] == items[3..]; }
    assert ApplyAll(kv3, items[3..]) == ApplyAll(kv4, items[4..]) by { assert items[3..][1..] == items[4..]; }
    assert ApplyAll(kv4, items[4..]) == ApplyAll(kv5, items[5..]) by { assert items[4..][1..] == items[5..]; }
    if kv.lease != 0 {
      assert items[5..] == [Number(6, kv.lease)];
      assert items[5..][1..] == [];
    } else {
      assert items[5..] == [];
    }
  }

  /** A message with the fields of `kv` and any well-formed unknown fields anywhere between
      them reads as `kv`. */
  lemma {:induction false} RoundTripWithUnknown(kv: Kv, items: seq<Item>)
    requires kv.key != [] && KnownOnly(items) == ItemsOf(kv)
    requires forall i :: 0 <= i < |items| ==> ItemOk(items[i])
    requires |Emit(items)| < TWO_64
    ensures Decode(Emit(items)) == Decoded(kv)
  {
    DecodeEmitted(items, EMPTY, |Emit(items)|);
    UnknownIgnored(items, EMPTY);
    ItemsRebuild(kv);
  }

  lemma EmptyKeyRefused(rest: seq<byte>, len: nat)
    requires |rest| + 2 <= len < TWO_64
    ensures ReadField(EmitItem(Key([])) + rest, EMPTY, len) == Malformed
  {
    hide ReadVarint, ReadChunk;
    var b := EmitItem(Key([])) + rest;
    assert b == Varint(0x0A) + (Varint(0) + [] + rest);
    VarintReadsBack(0x0A, Varint(0) + [] + rest);
    ChunkReadsBack([], rest, len);
  }

  /** What is written reads back, exactly when the key is not empty. */
  lemma {:induction false} RoundTrip(kv: Kv)
    requires |Encoded(kv)| < TWO_64
    ensures Decode(Encoded(kv)) == Decoded(kv) <==> kv.key != []
  {
    var items := ItemsOf(kv);
    if kv.key != [] {
      KnownItems(kv);
      RoundTripWithUnknown(kv, items);
    } else {
      var rest := Emit(items[1..]);
      assert Encoded(kv) == EmitItem(Key([])) + rest;
      assert |EmitItem(Key([]))| == 2;
      EmptyKeyRefused(rest, |Encoded(kv)|);
    }
  }

  lemma {:induction false} AllKnown(items: seq<Item>)
    requires forall i :: 0 <= i < |items| ==> Known(items[i])
    ensures KnownOnly(items) == items
  {
    if items != [] {
      assert forall i :: 0 <= i < |items| - 1 ==> items[1..][i] == items[i + 1];
      AllKnown(items[1..]);
      assert items == [items[0]] + items[1..];
    }
  }

  lemma KnownItems(kv: Kv)
    ensures KnownOnly(ItemsOf(kv)) == ItemsOf(kv)
    ensures kv.key != [] ==> forall i :: 0 <= i < |ItemsOf(kv)| ==> ItemOk(ItemsOf(kv)[i])
  {
    AllKnown(ItemsOf(kv));
  }
}
