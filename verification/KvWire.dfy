/** The KeyValue message as protobuf puts it on the wire, apart from the reader and the writer of
    cmd/cetcd-migrate/main.c: which byte strings the reader accepts, and which one the writer
    emits. */
module KvWire {
  import opened Bytes
  import opened KvCodec
  import D = Decimal

  // -------------------------------------------------------------------------- varints

  /** One to ten bytes, of which the last and only the last is below 128. */
  ghost predicate IsVarint(b: seq<byte>) {
    && 0 < |b| <= 10
    && forall i :: 0 <= i < |b| ==> (b[i] < 128 <==> i == |b| - 1)
  }

  /** The low seven bits of each byte as digits, the least significant first. */
  function Base128(b: seq<byte>): nat {
    if b == [] then 0 else b[0] % 128 + 128 * Base128(b[1..])
  }

  /** What fits 64 bits of it. */
  function Number(b: seq<byte>): u64 {
    Base128(b) % TWO_64
  }

  /** The writer's varint is the shortest of those with its value. */
  lemma {:induction false} VarintSpelled(v: u64)
    ensures IsVarint(Varint(v)) && Number(Varint(v)) == v
    ensures |Varint(v)| > 1 ==> Varint(v)[|Varint(v)| - 1] != 0
  {
    VarintDigits(v);
    VarintFits(v);
  }

  lemma {:induction false} VarintDigits(v: nat)
    ensures Base128(Varint(v)) == v
    ensures forall i :: 0 <= i < |Varint(v)| ==> (Varint(v)[i] < 128 <==> i == |Varint(v)| - 1)
    ensures |Varint(v)| > 1 ==> Varint(v)[|Varint(v)| - 1] != 0
  {
    if v >= 128 {
      VarintDigits(v / 128);
      assert Varint(v)[1..] == Varint(v / 128);
      assert v / 128 < 128 ==> Varint(v / 128) == [v / 128];
    } else {
      assert Varint(v)[1..] == [];
    }
  }

  lemma VarintFits(v: u64)
    ensures |Varint(v)| <= 10
  {
    assert Power128(5) == 0x8_0000_0000;
    assert Power128(10) == 0x40_0000_0000_0000_0000;
    VarintShort(v, 10);
  }

  /** One digit, then the others: the sum modulo 2^64. */
  lemma AddDigit(acc: u64, low: nat, p: nat, q: nat, more: nat)
    requires q == 128 * p
    ensures ((acc + low * p) % TWO_64 + q * more) % TWO_64 == (acc + p * (low + 128 * more)) % TWO_64
  {
    var a := acc + low * p;
    assert acc + p * (low + 128 * more) == a + q * more by {
      assert p * (low + 128 * more) == low * p + p * (128 * more);
      assert p * (128 * more) == 128 * p * more;
    }
    D.SameRemainder(a + q * more, a % TWO_64 + q * more, a / TWO_64);
  }

  /** The rest of a varint, from byte `j` on. */
  ghost predicate RestOfVarint(b: seq<byte>, j: nat) {
    && 0 < |b| && j + |b| <= 10
    && forall i :: 0 <= i < |b| ==> (b[i] < 128 <==> i == |b| - 1)
  }

  function Sum(b: seq<byte>, j: nat, acc: u64): u64 {
    (acc + PowerOfTwo(7 * j) * Base128(b)) % TWO_64
  }

  lemma SumStep(b: seq<byte>, j: nat, acc: u64)
    requires b != []
    ensures Sum(b, j, acc) == Sum(b[1..], j + 1, (acc + b[0] % 128 * PowerOfTwo(7 * j)) % TWO_64)
  {
    var p, q := PowerOfTwo(7 * j), PowerOfTwo(7 * (j + 1));
    assert 7 * (j + 1) == 7 * j + 7;
    NextScale(7 * j);
    hide PowerOfTwo;
    AddDigit(acc, b[0] % 128, p, q, Base128(b[1..]));
  }

  lemma SumNothing(j: nat, acc: u64)
    ensures Sum([], j, acc) == acc
  {
  }

  /** Reading a varint gives its number. */
  lemma {:induction false} ReadsFrom(x: seq<byte>, rest: seq<byte>, j: nat, acc: u64)
    requires RestOfVarint(x, j)
    ensures ReadFrom(x + rest, 7 * j, acc) == Got(Sum(x, j, acc), rest)
    decreases |x|
  {
    var b := x + rest;
    assert b[0] == x[0] && b[1..] == x[1..] + rest;
    SumStep(x, j, acc);
    var acc' := (acc + x[0] % 128 * PowerOfTwo(7 * j)) % TWO_64;
    hide Sum, PowerOfTwo;
    if |x| == 1 {
      SumNothing(j + 1, acc');
      assert x[1..] == [] && [] + rest == rest;
    } else {
      ReadsFrom(x[1..], rest, j + 1, acc');
      assert 7 * (j + 1) == 7 * j + 7;
    }
  }

  /** What is read is a varint. */
  lemma {:induction false} ReadFromIs(b: seq<byte>, j: nat, acc: u64) returns (n: nat)
    requires j <= 9 && ReadFrom(b, 7 * j, acc).Got?
    ensures n <= |b| && RestOfVarint(b[..n], j)
    decreases |b|
  {
    if b[0] < 128 {
      n := 1;
    } else {
      var acc' := (acc + b[0] % 128 * PowerOfTwo(7 * j)) % TWO_64;
      hide PowerOfTwo;
      assert 7 * (j + 1) == 7 * j + 7;
      var m := ReadFromIs(b[1..], j + 1, acc');
      n := m + 1;
      assert b[..n] == [b[0]] + b[1..][..m];
    }
  }

  lemma {:induction false} Reads(x: seq<byte>, rest: seq<byte>)
    requires IsVarint(x)
    ensures ReadVarint(x + rest) == Got(Number(x), rest)
  {
    ReadsFrom(x, rest, 0, 0);
    assert PowerOfTwo(0) == 1;
  }

  lemma {:induction false} ReadIs(b: seq<byte>) returns (x: seq<byte>)
    requires ReadVarint(b).Got?
    ensures IsVarint(x) && b == x + ReadVarint(b).rest && ReadVarint(b).val == Number(x)
  {
    var n := ReadFromIs(b, 0, 0);
    x := b[..n];
    assert b == x + b[n..];
    Reads(x, b[n..]);
  }

  // --------------------------------------------------------------------------- fields

  /** A field on the wire: the tag, then a number, or a length and that many bytes. */
  datatype Wire = Wire(tag: seq<byte>, num: seq<byte>, body: seq<byte>)

  function FieldNo(tag: seq<byte>): nat {
    Number(tag) / 8 % TWO_32
  }

  /** A number unless it is key or value, or bytes unless it is one of the four numbers; the key
      has at least one. */
  ghost predicate WireOk(w: Wire) {
    && IsVarint(w.tag) && IsVarint(w.num)
    && match Number(w.tag) % 8 {
         case 0 => w.body == [] && FieldNo(w.tag) !in {1, 4}
         case 2 => Number(w.num) == |w.body| && FieldNo(w.tag) !in {2, 3, 5, 6} && (FieldNo(w.tag) == 1 ==> w.body != [])
         case _ => false
       }
  }

  function WireBytes(w: Wire): seq<byte> {
    w.tag + w.num + w.body
  }

  /** Two's complement. */
  function Signed(v: u64): (x: i64)
    ensures (x - v) % 0x1_0000_0000_0000_0000 == 0
  {
    if v >= 0x8000_0000_0000_0000 then v - 0x1_0000_0000_0000_0000 else v
  }

  /** What a field says: 1 the key, 2 the revision, 3 the version, 4 the value, 5 the revision of
      creation, 6 the lease. */
  function Said(kv: Kv, w: Wire): Kv {
    match FieldNo(w.tag)
    case 1 => kv.(key := w.body)
    case 2 => kv.(modRevision := Signed(Number(w.num)))
    case 3 => kv.(version := Signed(Number(w.num)))
    case 4 => kv.(value := w.body)
    case 5 => kv.(createRevision := Signed(Number(w.num)))
    case 6 => kv.(lease := Signed(Number(w.num)))
    case _ => kv
  }

  ghost predicate AllOk(ws: seq<Wire>) {
    forall i :: 0 <= i < |ws| ==> WireOk(ws[i])
  }

  function AllBytes(ws: seq<Wire>): seq<byte> {
    if ws == [] then [] else WireBytes(ws[0]) + AllBytes(ws[1..])
  }

  function AllSaid(kv: Kv, ws: seq<Wire>): Kv
    decreases |ws|
  {
    if ws == [] then kv else AllSaid(Said(kv, ws[0]), ws[1..])
  }

  /** The end of a message of `len` bytes: nothing, or a field that is not known with fewer bytes
      than it announces. */
  ghost predicate EndOk(end: seq<byte>, len: nat) {
    end != [] ==> exists w :: end == WireBytes(w) && CutShort(w, len)
  }

  ghost predicate CutShort(w: Wire, len: nat) {
    && IsVarint(w.tag) && IsVarint(w.num)
    && Number(w.tag) % 8 == 2 && FieldNo(w.tag) !in {1, 2, 3, 4, 5, 6}
    && |w.body| < Number(w.num) && len - |w.body| + Number(w.num) < TWO_64
  }

  // ---------------------------------------------------------------------- one field

  lemma TwoReads(w: Wire, rest: seq<byte>)
    requires IsVarint(w.tag) && IsVarint(w.num)
    ensures ReadVarint(WireBytes(w) + rest) == Got(Number(w.tag), w.num + w.body + rest)
    ensures ReadVarint(w.num + w.body + rest) == Got(Number(w.num), w.body + rest)
  {
    hide ReadVarint, IsVarint, Number;
    Reads(w.tag, w.num + w.body + rest);
    assert WireBytes(w) + rest == w.tag + (w.num + w.body + rest);
    Reads(w.num, w.body + rest);
    assert w.num + w.body + rest == w.num + (w.body + rest);
  }

  lemma FieldTaken(w: Wire, kv: Kv, rest: seq<byte>, len: nat)
    requires WireOk(w) && |WireBytes(w) + rest| <= len < TWO_64
    ensures ReadField(WireBytes(w) + rest, kv, len) == Taken(Said(kv, w), rest)
  {
    TwoReads(w, rest);
    var c := w.num + w.body + rest;
    assert Number(w.tag) % 8 == 2 ==> ReadChunk(c, len) == Chunk(w.body, rest) by {
      hide IsVarint, ReadVarint, Number;
      assert (w.body + rest)[..|w.body|] == w.body && (w.body + rest)[|w.body|..] == rest;
    }
    assert w.body == [] ==> w.body + rest == rest;
    hide IsVarint, ReadVarint, Number, ReadChunk, WireBytes;
  }

  lemma EndTaken(w: Wire, kv: Kv, len: nat)
    requires CutShort(w, len)
    ensures ReadField(WireBytes(w), kv, len) == Taken(kv, [])
  {
    assert WireBytes(w) + [] == WireBytes(w) && w.body + [] == w.body;
    TwoReads(w, []);
    hide IsVarint, ReadVarint, Number, WireBytes;
  }

  /** What the reader takes is a field, or the end of the message. */
  lemma FieldIs(b: seq<byte>, kv: Kv, len: nat) returns (w: Wire)
    requires ReadField(b, kv, len).Taken? && |b| <= len < TWO_64
    ensures var f := ReadField(b, kv, len);
            || (WireOk(w) && b == WireBytes(w) + f.rest && f.kv == Said(kv, w))
            || (CutShort(w, len) && b == WireBytes(w) && f.rest == [] && f.kv == kv)
  {
    hide ReadVarint;
    var tag := ReadIs(b);
    var c := ReadVarint(b).rest;
    var num := ReadIs(c);
    var d := ReadVarint(c).rest;
    var n := Number(num);
    hide Number, IsVarint;
    if Number(tag) % 8 == 0 {
      w := Wire(tag, num, []);
      assert b == WireBytes(w) + d;
    } else if n <= |d| {
      w := Wire(tag, num, d[..n]);
      assert d == d[..n] + d[n..];
      assert b == WireBytes(w) + d[n..];
    } else {
      w := Wire(tag, num, d);
      assert b == WireBytes(w);
    }
  }

  // ------------------------------------------------------------------------ messages

  /** The reader accepts exactly the byte strings that are a run of fields, up to such an end, and
      returns what the fields say, later ones over earlier ones. */
  lemma DecodesIff(data: seq<byte>, kv: Kv)
    requires |data| < TWO_64
    ensures Decode(data) == Decoded(kv)
            <==> exists ws, end :: data == AllBytes(ws) + end && AllOk(ws) && EndOk(end, |data|) && AllSaid(EMPTY, ws) == kv
  {
    hide AllBytes, AllOk, EndOk, AllSaid, DecodeFrom;
    if Decode(data) == Decoded(kv) {
      var ws, end := MessageIs(data, EMPTY, |data|);
    }
    forall ws, end | data == AllBytes(ws) + end && AllOk(ws) && EndOk(end, |data|) && AllSaid(EMPTY, ws) == kv
      ensures Decode(data) == Decoded(kv)
    {
      MessageTaken(ws, end, EMPTY, |data|);
    }
  }

  lemma {:induction false} MessageTaken(ws: seq<Wire>, end: seq<byte>, kv: Kv, len: nat)
    requires AllOk(ws) && EndOk(end, len) && |AllBytes(ws) + end| <= len < TWO_64
    ensures DecodeFrom(AllBytes(ws) + end, kv, len) == Decoded(AllSaid(kv, ws))
    decreases |ws|
  {
    var b := AllBytes(ws) + end;
    hide ReadField, WireOk, Said, WireBytes, CutShort;
    if ws == [] {
      assert b == end;
      if end != [] {
        var w :| end == WireBytes(w) && CutShort(w, len);
        EndTaken(w, kv, len);
      }
    } else {
      var rest := AllBytes(ws[1..]) + end;
      assert b == WireBytes(ws[0]) + rest;
      FieldTaken(ws[0], kv, rest, len);
      WireNonempty(ws[0], rest);
      MessageTaken(ws[1..], end, Said(kv, ws[0]), len);
    }
  }

  lemma WireNonempty(w: Wire, rest: seq<byte>)
    requires WireOk(w)
    ensures WireBytes(w) + rest != []
  {
  }

  lemma {:induction false} MessageIs(b: seq<byte>, kv: Kv, len: nat) returns (ws: seq<Wire>, end: seq<byte>)
    requires DecodeFrom(b, kv, len).Decoded? && |b| <= len < TWO_64
    ensures b == AllBytes(ws) + end && AllOk(ws) && EndOk(end, len)
    ensures DecodeFrom(b, kv, len) == Decoded(AllSaid(kv, ws))
    decreases |b|
  {
    hide ReadField, WireOk, Said, WireBytes, CutShort;
    if b == [] {
      ws, end := [], [];
    } else {
      var f := ReadField(b, kv, len);
      var w := FieldIs(b, kv, len);
      FieldShrinks(b, kv, len);
      if WireOk(w) && b == WireBytes(w) + f.rest && f.kv == Said(kv, w) {
        var more, last := MessageIs(f.rest, f.kv, len);
        ws, end := [w] + more, last;
        assert ws[1..] == more;
        assert b == WireBytes(w) + AllBytes(more) + end;
      } else {
        ws, end := [], b;
        assert f.rest == [];
      }
    }
  }

  // ----------------------------------------------------------------------- the writer

  /** The bytes the writer emits, field by field. */
  lemma EncodedSpelled(kv: Kv)
    ensures Encoded(kv)
         == ([0x0A] + Varint(|kv.key|) + kv.key)
            + ([0x10] + Varint(Unsigned(kv.modRevision)))
            + ([0x18] + Varint(Unsigned(kv.version)))
            + ([0x22] + Varint(|kv.value|) + kv.value)
            + ([0x28] + Varint(Unsigned(kv.createRevision)))
            + (if kv.lease == 0 then [] else [0x30] + Varint(Unsigned(kv.lease)))
  {
    var items := ItemsOf(kv);
    FieldsOf(kv);
    BytesSpelled(kv);
    NumberSpelled(2, kv.modRevision);
    NumberSpelled(3, kv.version);
    NumberSpelled(5, kv.createRevision);
    hide Varint, ItemsOf, EmitItem, Unsigned;
    var last := Emit(items[5..]);
    assert last == if kv.lease == 0 then [] else [0x30] + Varint(Unsigned(kv.lease)) by { LastSpelled(kv); }
    EmitFrom(items, 0);
    EmitFrom(items, 1);
    EmitFrom(items, 2);
    EmitFrom(items, 3);
    EmitFrom(items, 4);
    assert items[0..] == items;
    hide Emit;
    Flat(EmitItem(items[0]), EmitItem(items[1]), EmitItem(items[2]), EmitItem(items[3]), EmitItem(items[4]), last);
  }

  lemma Flat(a: seq<byte>, b: seq<byte>, c: seq<byte>, d: seq<byte>, e: seq<byte>, f: seq<byte>)
    ensures a + (b + (c + (d + (e + f)))) == a + b + c + d + e + f
  {
  }

  lemma BytesSpelled(kv: Kv)
    ensures EmitItem(Key(kv.key)) == [0x0A] + Varint(|kv.key|) + kv.key
    ensures EmitItem(Value(kv.value)) == [0x22] + Varint(|kv.value|) + kv.value
  {
    assert Varint(0x0A) == [0x0A] && Varint(0x22) == [0x22];
    hide Varint;
    assert [0x0A] + (Varint(|kv.key|) + kv.key) == [0x0A] + Varint(|kv.key|) + kv.key;
    assert [0x22] + (Varint(|kv.value|) + kv.value) == [0x22] + Varint(|kv.value|) + kv.value;
  }

  lemma NumberSpelled(field: nat, x: i64)
    requires field in {2, 3, 5, 6}
    ensures EmitItem(Item.Number(field, x)) == [8 * field] + Varint(Unsigned(x))
  {
    hide Varint;
    VarintStep(8 * field);
  }

  lemma LastSpelled(kv: Kv)
    ensures Emit(ItemsOf(kv)[5..]) == if kv.lease == 0 then [] else [0x30] + Varint(Unsigned(kv.lease))
  {
    var items := ItemsOf(kv);
    FieldsOf(kv);
    hide ItemsOf, EmitItem, Varint, Unsigned;
    if kv.lease != 0 {
      NumberSpelled(6, kv.lease);
      EmitFrom(items, 5);
      assert items[6..] == [];
      assert EmitItem(items[5]) + [] == EmitItem(items[5]);
    } else {
      assert items[5..] == [];
    }
  }

  lemma EmitFrom(items: seq<Item>, i: nat)
    requires i < |items|
    ensures Emit(items[i..]) == EmitItem(items[i]) + Emit(items[i + 1..])
  {
    assert items[i..][1..] == items[i + 1..];
  }

  /** Two's complement. */
  function Unsigned(x: i64): (v: u64)
    ensures (v - x) % 0x1_0000_0000_0000_0000 == 0
  {
    if x < 0 then x + 0x1_0000_0000_0000_0000 else x
  }
}
