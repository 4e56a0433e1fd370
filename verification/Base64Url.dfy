/** base64url without padding (section 5 of RFC 4648), as src/auth/auth.c writes and reads it. */
module Base64Url {
  import opened Bytes

  // ---------------------------------------------------------------------- encoding

  /** The letter for a six-bit value. */
  function Letter(v: nat): byte
    requires v < 64
  {
    if v < 26 then 65 + v               // 'A'..'Z'
    else if v < 52 then 97 + (v - 26)   // 'a'..'z'
    else if v < 62 then 48 + (v - 52)   // '0'..'9'
    else if v == 62 then 45             // '-'
    else 95                             // '_'
  }

  /** One group: up to three bytes as two to four letters. */
  function Group(b: seq<byte>): (g: seq<byte>)
    requires 0 < |b| <= 3
    ensures |g| == |b| + 1
  {
    var b1 := if |b| > 1 then b[1] else 0;
    var b2 := if |b| > 2 then b[2] else 0;
    [Letter(b[0] / 4), Letter(b[0] % 4 * 16 + b1 / 16)]
    + (if |b| > 1 then [Letter(b1 % 16 * 4 + b2 / 64)] else [])
    + (if |b| > 2 then [Letter(b2 % 64)] else [])
  }

  function Encoded(b: seq<byte>): seq<byte> {
    if b == [] then []
    else if |b| <= 3 then Group(b)
    else Group(b[..3]) + Encoded(b[3..])
  }

  /** Length of the encoding. */
  function EncodedLen(n: nat): nat {
    n / 3 * 4 + (if n % 3 == 0 then 0 else n % 3 + 1)
  }

  lemma {:induction false} EncodedLength(b: seq<byte>)
    ensures |Encoded(b)| == EncodedLen(|b|)
    decreases |b|
  {
    if |b| > 3 {
      EncodedLength(b[3..]);
    }
  }

  /** The six-bit fields of three bytes read as one 24-bit number. */
  lemma Fields(a: nat, b: nat, c: nat, v: nat)
    requires a < 256 && b < 256 && c < 256 && v == a * 65536 + b * 256 + c
    ensures v / 262144 % 64 == a / 4
    ensures v / 4096 % 64 == a % 4 * 16 + b / 16
    ensures v / 64 % 64 == b % 16 * 4 + c / 64
    ensures v % 64 == c % 64
  {
    FirstField(a, b, c, v);
    SecondField(a, b, c, v);
    ThirdField(a, b, c, v);
  }

  lemma FirstField(a: nat, b: nat, c: nat, v: nat)
    requires a < 256 && b < 256 && c < 256 && v == a * 65536 + b * 256 + c
    ensures v / 262144 % 64 == a / 4 && v % 64 == c % 64
  {
    assert v == 262144 * (a / 4) + (a % 4 * 65536 + b * 256 + c);
  }

  lemma SecondField(a: nat, b: nat, c: nat, v: nat)
    requires a < 256 && b < 256 && c < 256 && v == a * 65536 + b * 256 + c
    ensures v / 4096 % 64 == a % 4 * 16 + b / 16
  {
    assert v == 4096 * (a * 16 + b / 16) + (b % 16 * 256 + c);
    assert v / 4096 == a * 16 + b / 16;
    assert a * 16 + b / 16 == 64 * (a / 4) + (a % 4 * 16 + b / 16);
  }

  lemma ThirdField(a: nat, b: nat, c: nat, v: nat)
    requires a < 256 && b < 256 && c < 256 && v == a * 65536 + b * 256 + c
    ensures v / 64 % 64 == b % 16 * 4 + c / 64
  {
    Parts64(v, a * 1024 + b * 4 + c / 64, c % 64);
    Parts64(a * 1024 + b * 4 + c / 64, a * 16 + b / 16, b % 16 * 4 + c / 64);
  }

  lemma Parts64(v: nat, q: nat, r: nat)
    requires v == 64 * q + r && r < 64
    ensures v / 64 == q && v % 64 == r
  {
  }

  lemma EncodedFrom(data: seq<byte>, i: nat)
    requires i < |data|
    ensures Encoded(data[i..]) ==
            if i + 3 < |data| then Group(data[i..i + 3]) + Encoded(data[i + 3..]) else Group(data[i..])
  {
    var s := data[i..];
    if i + 3 < |data| {
      assert s[..3] == data[i..i + 3] && s[3..] == data[i + 3..];
    }
  }

  /** One round of the encoder: None when the letters do not fit. */
  lemma OutGrows(data: seq<byte>, i: nat, out: seq<byte>)
    requires i < |data| && Encoded(data) == out + Encoded(data[i..])
    ensures var g := data[i..Min(|data|, i + 3)];
            && |out| + |Group(g)| <= |Encoded(data)|
            && Encoded(data) == if i + 3 < |data| then out + Group(g) + Encoded(data[i + 3..]) else out + Group(g)
  {
    hide Group, Encoded;
    EncodedFrom(data, i);
    if i + 3 < |data| {
      var g := data[i..i + 3];
      assert out + (Group(g) + Encoded(data[i + 3..])) == out + Group(g) + Encoded(data[i + 3..]);
    } else {
      assert data[i..|data|] == data[i..];
    }
  }

  method EncodeGroup(g: seq<byte>, out: seq<byte>, cap: nat) returns (next: Option<seq<byte>>)
    requires 0 < |g| <= 3
    ensures next == if |out| + |Group(g)| <= cap then Some(out + Group(g)) else None
  {
    var v := g[0] as int * 65536;
    if 1 < |g| { v := v + g[1] as int * 256; }
    if 2 < |g| { v := v + g[2] as int; }
    Fields(g[0], if 1 < |g| then g[1] else 0, if 2 < |g| then g[2] else 0, v);
    if |out| + 2 > cap { return None; }
    var o := out + [Letter(v / 262144 % 64), Letter(v / 4096 % 64)];
    if 1 < |g| {
      if |o| + 1 > cap { return None; }
      o := o + [Letter(v / 64 % 64)];
    }
    if 2 < |g| {
      if |o| + 1 > cap { return None; }
      o := o + [Letter(v % 64)];
    }
    assert o == out + Group(g);
    return Some(o);
  }

  /** b64url_encode_ into a buffer of `cap` bytes; no letters also stands for failure. */
  method Encode(data: seq<byte>, cap: nat) returns (out: seq<byte>)
    ensures out == if EncodedLen(|data|) <= cap then Encoded(data) else []
  {
    out := [];
    var i, n := 0, |data|;
    EncodedLength(data);
    assert data[0..] == data;
    assert n == 0 ==> Encoded(data) == [];
    hide Group, Encoded, EncodedLen;
    while i < n
      invariant i <= n + 2
      invariant i < n ==> Encoded(data) == out + Encoded(data[i..])
      invariant i >= n ==> Encoded(data) == out
      invariant |out| <= cap
    {
      var g := data[i..Min(n, i + 3)];
      OutGrows(data, i, out);
      var next := EncodeGroup(g, out, cap);
      if next.None? { return []; }
      out := next.value;
      i := i + 3;
    }
  }

  // ---------------------------------------------------------------------- decoding

  /** b64url_val_; -1 for a letter outside the alphabet. */
  function Value(c: byte): int {
    if 65 <= c <= 90 then c - 65
    else if 97 <= c <= 122 then c - 97 + 26
    else if 48 <= c <= 57 then c - 48 + 52
    else if c == 45 || c == 43 then 62
    else if c == 95 || c == 47 then 63
    else -1
  }

  /** The bytes of one group of letters.  A missing second letter counts as 0, an invalid third
      is skipped, and an invalid third with a valid fourth contributes its low two bits. */
  function Ungroup(g: seq<byte>): Option<seq<byte>>
    requires 0 < |g| <= 4
  {
    var a := Value(g[0]);
    var b := if |g| > 1 then Value(g[1]) else 0;
    var c := if |g| > 2 then Value(g[2]) else -2;
    var d := if |g| > 3 then Value(g[3]) else -2;
    if a < 0 || b < 0 then None
    else Some([a * 4 + b / 16]
              + (if c >= 0 then [b % 16 * 16 + c / 4] else [])
              + (if d >= 0 then [c % 4 * 64 + d] else []))
  }

  function Decoded(s: seq<byte>): Option<seq<byte>> {
    if s == [] then Some([])
    else if |s| <= 4 then Ungroup(s)
    else
      match Ungroup(s[..4])
      case None => None
      case Some(h) =>
        match Decoded(s[4..])
        case None => None
        case Some(t) => Some(h + t)
  }

  /** Trailing '=' signs are ignored. */
  function Unpadded(s: seq<byte>): seq<byte> {
    if s != [] && s[|s| - 1] == 61 then Unpadded(s[..|s| - 1]) else s
  }

  /** One round of the decoder: None for a bad letter or a full buffer. */
  method DecodeGroup(g: seq<byte>, out: seq<byte>, cap: nat) returns (next: Option<seq<byte>>)
    requires 0 < |g| <= 4
    ensures next == if Ungroup(g).None? || |out| + |Ungroup(g).value| > cap then None
                    else Some(out + Ungroup(g).value)
  {
    var a := Value(g[0]);
    var b := if 1 < |g| then Value(g[1]) else 0;
    var c := if 2 < |g| then Value(g[2]) else -2;
    var d := if 3 < |g| then Value(g[3]) else -2;
    if a < 0 || b < 0 { return None; }
    if |out| >= cap { return None; }
    var o := out + [a * 4 + b / 16];
    if c >= 0 {
      if |o| >= cap { return None; }
      o := o + [b % 16 * 16 + c / 4];
    }
    if d >= 0 {
      if |o| >= cap { return None; }
      o := o + [c % 4 * 64 + d];
    }
    assert o == out + Ungroup(g).value;
    return Some(o);
  }

  /** b64url_decode_ into a buffer of `cap` bytes. */
  method Decode(s: seq<byte>, cap: nat) returns (out: Option<seq<byte>>)
    ensures out == var d := Decoded(Unpadded(s)); if d.None? || |d.value| > cap then None else d
  {
    hide Ungroup;
    var n := |s|;
    assert s[..n] == s;
    while n > 0 && s[n - 1] == 61
      invariant 0 <= n <= |s|
      invariant Unpadded(s[..n]) == Unpadded(s)
    {
      assert s[..n][..n - 1] == s[..n - 1];
      n := n - 1;
    }
    var t := s[..n];
    assert t == Unpadded(s);
    var o: seq<byte> := [];
    var i := 0;
    assert t[0..] == t;
    PrependNothing(Decoded(t));
    while i < n
      invariant 0 <= i <= n
      invariant |o| <= cap
      invariant Decoded(t) == Prepend(o, Decoded(t[i..]))
    {
      var e := Min(n, i + 4);
      var g := t[i..e];
      StepOfDecode(t, i);
      var next := DecodeGroup(g, o, cap);
      if Ungroup(g).Some? {
        PrependTwice(o, Ungroup(g).value, Decoded(t[e..]));
      }
      if next.None? { return None; }
      o, i := next.value, e;
    }
    assert t[n..] == [] && o + [] == o;
    return Some(o);
  }

  ghost function Prepend(o: seq<byte>, rest: Option<seq<byte>>): Option<seq<byte>> {
    match rest
    case None => None
    case Some(t) => Some(o + t)
  }

  lemma PrependNothing(rest: Option<seq<byte>>)
    ensures Prepend([], rest) == rest
  {
    if rest.Some? {
      assert [] + rest.value == rest.value;
    }
  }

  lemma PrependTwice(o: seq<byte>, h: seq<byte>, rest: Option<seq<byte>>)
    ensures Prepend(o, Prepend(h, rest)) == Prepend(o + h, rest)
  {
    if rest.Some? {
      assert o + (h + rest.value) == (o + h) + rest.value;
    }
  }

  lemma StepOfDecode(t: seq<byte>, i: nat)
    requires i < |t|
    ensures var e := Min(|t|, i + 4);
            var g := t[i..e];
            Decoded(t[i..]) ==
            if Ungroup(g).None? then None else Prepend(Ungroup(g).value, Decoded(t[e..]))
  {
    var s := t[i..];
    if |s| <= 4 {
      assert t[i..|t|] == s && t[|t|..] == [];
      if Ungroup(s).Some? {
        assert Ungroup(s).value + [] == Ungroup(s).value;
      }
    } else {
      assert s[..4] == t[i..i + 4] && s[4..] == t[i + 4..];
    }
  }

  // -------------------------------------------------------------------- round trip

  lemma LetterValue(v: nat)
    requires v < 64
    ensures Value(Letter(v)) == v
    ensures Letter(v) != 61 && Letter(v) != 46 && Letter(v) != 0
  {
  }

  /** The six-bit fields give the bytes back. */
  lemma FieldsBack(a: nat, b: nat, c: nat)
    requires a < 256 && b < 256 && c < 256
    ensures var y, z := a % 4 * 16 + b / 16, b % 16 * 4 + c / 64;
            a / 4 * 4 + y / 16 == a && y % 16 * 16 + z / 4 == b && z % 4 * 64 + c % 64 == c
  {
  }

  lemma GroupRoundTrip(b: seq<byte>)
    requires 0 < |b| <= 3
    ensures Ungroup(Group(b)) == Some(b)
  {
    hide Letter, Value;
    var b1 := if |b| > 1 then b[1] else 0;
    var b2 := if |b| > 2 then b[2] else 0;
    var g := Group(b);
    FieldsBack(b[0], b1, b2);
    LetterValue(b[0] / 4);
    LetterValue(b[0] % 4 * 16 + b1 / 16);
    LetterValue(b1 % 16 * 4 + b2 / 64);
    LetterValue(b2 % 64);
    if |b| == 1 {
      assert Ungroup(g).value == [b[0]] == b;
    } else if |b| == 2 {
      assert Ungroup(g).value == [b[0], b[1]] == b;
    } else {
      assert Ungroup(g).value == [b[0], b[1], b[2]] == b;
    }
  }

  lemma GroupLetters(b: seq<byte>, i: nat)
    requires 0 < |b| <= 3 && i < |Group(b)|
    ensures Group(b)[i] != 61 && Group(b)[i] != 46 && Group(b)[i] != 0
  {
  }

  /** No letter of the encoding is '=', '.' or 0. */
  lemma {:induction false} EncodedLetters(b: seq<byte>, i: nat)
    requires i < |Encoded(b)|
    ensures Encoded(b)[i] != 61 && Encoded(b)[i] != 46 && Encoded(b)[i] != 0
    decreases |b|
  {
    if |b| <= 3 {
      GroupLetters(b, i);
    } else if i >= 4 {
      EncodedLetters(b[3..], i - 4);
      assert Encoded(b)[i] == Encoded(b[3..])[i - 4];
    } else {
      GroupLetters(b[..3], i);
    }
  }

  // ------------------------------------------------------------ against the alphabet

  /** The alphabet of section 5 of RFC 4648. */
  const ALPHABET := UPPER + LOWER + DIGITS + "-_"

  const UPPER := "ABCDEFGHIJKLMNOPQRSTUVWXYZ"
  const LOWER := "abcdefghijklmnopqrstuvwxyz"
  const DIGITS := "0123456789"

  /** Bit `j` of a byte string, the highest bit of its first byte first; 0 behind its end. */
  function Bit(b: seq<byte>, j: nat): nat {
    if j / 8 >= |b| then 0
    else
      var x := b[j / 8];
      match j % 8
      case 0 => x / 128
      case 1 => x / 64 % 2
      case 2 => x / 32 % 2
      case 3 => x / 16 % 2
      case 4 => x / 8 % 2
      case 5 => x / 4 % 2
      case 6 => x / 2 % 2
      case _ => x % 2
  }

  /** The `i`-th six bits, as a number. */
  function SixBits(b: seq<byte>, i: nat): nat {
    32 * Bit(b, 6 * i) + 16 * Bit(b, 6 * i + 1) + 8 * Bit(b, 6 * i + 2)
    + 4 * Bit(b, 6 * i + 3) + 2 * Bit(b, 6 * i + 4) + Bit(b, 6 * i + 5)
  }

  lemma UpperAt(v: nat)
    requires v < 26
    ensures UPPER[v] as int == 65 + v
  {
  }

  lemma LowerAt(v: nat)
    requires v < 26
    ensures LOWER[v] as int == 97 + v
  {
  }

  lemma DigitAt(v: nat)
    requires v < 10
    ensures DIGITS[v] as int == 48 + v
  {
  }

  lemma LetterInAlphabet(v: nat)
    requires v < 64
    ensures |ALPHABET| == 64 && Letter(v) == ALPHABET[v] as int
  {
    if v < 26 { UpperAt(v); } else if v < 52 { LowerAt(v - 26); } else if v < 62 { DigitAt(v - 52); }
  }

  /** Each quotient is twice the next and a bit. */
  lemma Halves(x: byte)
    ensures x / 64 == 2 * (x / 128) + x / 64 % 2
    ensures x / 32 == 2 * (x / 64) + x / 32 % 2
    ensures x / 16 == 2 * (x / 32) + x / 16 % 2
    ensures x / 8 == 2 * (x / 16) + x / 8 % 2
    ensures x / 4 == 2 * (x / 8) + x / 4 % 2
    ensures x / 2 == 2 * (x / 4) + x / 2 % 2
    ensures x == 2 * (x / 2) + x % 2
  {
  }

  lemma Remainders(x: byte)
    ensures x % 4 == x - 4 * (x / 4) && x % 16 == x - 16 * (x / 16) && x % 64 == x - 64 * (x / 64)
  {
  }

  /** Byte `k` of the string, 0 behind its end, from its bits: its high and low parts. */
  lemma Parts(b: seq<byte>, k: nat)
    ensures var x := if k < |b| then b[k] else 0;
            && x / 64 == 2 * Bit(b, 8 * k) + Bit(b, 8 * k + 1)
            && x / 16 == 4 * (x / 64) + 2 * Bit(b, 8 * k + 2) + Bit(b, 8 * k + 3)
            && x / 4 == 4 * (x / 16) + 2 * Bit(b, 8 * k + 4) + Bit(b, 8 * k + 5)
            && x == 4 * (x / 4) + 2 * Bit(b, 8 * k + 6) + Bit(b, 8 * k + 7)
  {
    BitsOf(b, k);
    hide Bit;
    if k < |b| { Halves(b[k]); }
  }

  lemma BitsOf(b: seq<byte>, k: nat)
    ensures k >= |b| ==> forall j :: 8 * k <= j < 8 * k + 8 ==> Bit(b, j) == 0
    ensures k < |b| ==>
              var x := b[k];
              && Bit(b, 8 * k) == x / 128 && Bit(b, 8 * k + 1) == x / 64 % 2
              && Bit(b, 8 * k + 2) == x / 32 % 2 && Bit(b, 8 * k + 3) == x / 16 % 2
              && Bit(b, 8 * k + 4) == x / 8 % 2 && Bit(b, 8 * k + 5) == x / 4 % 2
              && Bit(b, 8 * k + 6) == x / 2 % 2 && Bit(b, 8 * k + 7) == x % 2
  {
  }

  /** The four six-bit numbers of the first three bytes, or of fewer. */
  lemma FirstSixBits(b: seq<byte>)
    requires b != []
    ensures var b1, b2 := if |b| > 1 then b[1] else 0, if |b| > 2 then b[2] else 0;
            && SixBits(b, 0) == b[0] / 4 && SixBits(b, 1) == b[0] % 4 * 16 + b1 / 16
            && SixBits(b, 2) == b1 % 16 * 4 + b2 / 64 && SixBits(b, 3) == b2 % 64
  {
    hide Bit;
    var b1, b2: byte := if |b| > 1 then b[1] else 0, if |b| > 2 then b[2] else 0;
    Parts(b, 0);
    Parts(b, 1);
    Parts(b, 2);
    Remainders(b[0]);
    Remainders(b1);
    Remainders(b2);
  }

  lemma SixBitsLater(b: seq<byte>, i: nat)
    requires |b| > 3
    ensures SixBits(b, i + 4) == SixBits(b[3..], i)
  {
    BitLater(b, 6 * i);
    BitLater(b, 6 * i + 1);
    BitLater(b, 6 * i + 2);
    BitLater(b, 6 * i + 3);
    BitLater(b, 6 * i + 4);
    BitLater(b, 6 * i + 5);
    hide Bit;
  }

  lemma BitLater(b: seq<byte>, j: nat)
    requires |b| > 3
    ensures Bit(b, j + 24) == Bit(b[3..], j)
  {
    assert (j + 24) / 8 == j / 8 + 3 && (j + 24) % 8 == j % 8;
  }

  lemma FirstLetters(b: seq<byte>, i: nat)
    requires 0 < |b| <= 3 && i < |Group(b)|
    ensures SixBits(b, i) < 64 && Group(b)[i] == Letter(SixBits(b, i))
  {
    hide SixBits, Letter;
    FirstSixBits(b);
  }

  lemma {:induction false} EncodedIsLetters(b: seq<byte>, i: nat)
    requires i < |Encoded(b)|
    ensures SixBits(b, i) < 64 && Encoded(b)[i] == Letter(SixBits(b, i))
    decreases |b|
  {
    hide SixBits, Letter, Group;
    if |b| <= 3 {
      FirstLetters(b, i);
    } else if i < 4 {
      FirstSixBits(b);
      FirstSixBits(b[..3]);
      FirstLetters(b[..3], i);
    } else {
      EncodedIsLetters(b[3..], i - 4);
      SixBitsLater(b, i - 4);
      assert Encoded(b)[i] == Encoded(b[3..])[i - 4];
    }
  }

  /** Letter by letter, an encoding is the bit string in groups of six, each looked up in the alphabet. */
  lemma EncodedInAlphabet(b: seq<byte>, i: nat)
    requires i < |Encoded(b)|
    ensures SixBits(b, i) < 64 && Encoded(b)[i] == ALPHABET[SixBits(b, i)] as int
  {
    hide SixBits, Letter, Encoded;
    EncodedIsLetters(b, i);
    LetterInAlphabet(SixBits(b, i));
  }

  /** The reader knows the letters of the alphabet by their place, '+' and '/' besides, and no others. */
  lemma ValueIs(c: byte)
    ensures forall v :: 0 <= v < 64 && ALPHABET[v] as int == c ==> Value(c) == v
    ensures c == '+' as int ==> Value(c) == 62
    ensures c == '/' as int ==> Value(c) == 63
    ensures Value(c) >= 0 ==> c == '+' as int || c == '/' as int || exists v :: 0 <= v < 64 && ALPHABET[v] as int == c
  {
    forall v | 0 <= v < 64 && ALPHABET[v] as int == c ensures Value(c) == v {
      LetterInAlphabet(v);
      LetterValue(v);
    }
    if Value(c) >= 0 {
      LetterInAlphabet(Value(c));
    }
  }

  /** Decoding undoes encoding, for every byte string. */
  lemma {:induction false} RoundTrip(b: seq<byte>)
    ensures Decoded(Encoded(b)) == Some(b)
    decreases |b|
  {
    if b == [] {
    } else if |b| <= 3 {
      GroupRoundTrip(b);
    } else {
      GroupRoundTrip(b[..3]);
      RoundTrip(b[3..]);
      var e, g := Encoded(b), Group(b[..3]);
      assert e[..4] == g && e[4..] == Encoded(b[3..]);
      EncodedLength(b[3..]);
      assert b == b[..3] + b[3..];
    }
  }

  lemma NoPadding(b: seq<byte>)
    ensures Unpadded(Encoded(b)) == Encoded(b)
  {
    if Encoded(b) != [] {
      EncodedLetters(b, |Encoded(b)| - 1);
    }
  }

  // ------------------------------------------------------------------ what is accepted

  /** Letters are accepted if and only if the first two of every four are of the alphabet. */
  lemma {:induction false} DecodableIff(s: seq<byte>)
    ensures Decoded(s).Some? <==> forall i :: 0 <= i < |s| && i % 4 < 2 ==> Value(s[i]) >= 0
    decreases |s|
  {
    if |s| > 4 {
      var g, t := s[..4], s[4..];
      DecodableIff(t);
      assert forall i :: 0 <= i < |t| ==> t[i] == s[i + 4] && (i + 4) % 4 == i % 4;
      assert forall i :: 4 <= i < |s| ==> s[i] == t[i - 4];
      assert g[0] == s[0] && g[1] == s[1];
      hide Value;
    }
  }

  /** The number six bits a letter make. */
  function Number64(g: seq<byte>): int {
    if g == [] then 0 else 64 * Number64(g[..|g| - 1]) + Value(g[|g| - 1])
  }

  ghost predicate AllLetters(s: seq<byte>) {
    forall i :: 0 <= i < |s| ==> Value(s[i]) >= 0
  }

  /** `b` is the bits of these letters without those that do not fill a byte; for a single letter, with
      two more. */
  ghost predicate SameBits(g: seq<byte>, b: seq<byte>) {
    match |g|
    case 4 => |b| == 3 && Base256(b) == Number64(g)
    case 3 => |b| == 2 && Base256(b) == Number64(g) / 4
    case 2 => |b| == 1 && Base256(b) == Number64(g) / 16
    case 1 => |b| == 1 && Base256(b) == Number64(g) * 4
    case _ => false
  }

  lemma Few64(g: seq<byte>)
    ensures |g| == 1 ==> Number64(g) == Value(g[0])
    ensures |g| == 2 ==> Number64(g) == Value(g[0]) * 64 + Value(g[1])
    ensures |g| == 3 ==> Number64(g) == (Value(g[0]) * 64 + Value(g[1])) * 64 + Value(g[2])
    ensures |g| == 4 ==> Number64(g) == ((Value(g[0]) * 64 + Value(g[1])) * 64 + Value(g[2])) * 64 + Value(g[3])
  {
    hide Value;
    if |g| == 1 {
      assert g[..0] == [];
    } else if 1 < |g| <= 4 {
      Few64(g[..|g| - 1]);
    }
  }

  lemma Few256(b: seq<byte>)
    ensures |b| == 1 ==> Base256(b) == b[0] as int
    ensures |b| == 2 ==> Base256(b) == b[0] as int * 256 + b[1] as int
    ensures |b| == 3 ==> Base256(b) == (b[0] as int * 256 + b[1] as int) * 256 + b[2] as int
  {
    if |b| == 1 {
      assert b[..0] == [];
    } else if 1 < |b| <= 3 {
      Few256(b[..|b| - 1]);
    }
  }

  lemma GroupBits(g: seq<byte>)
    requires 0 < |g| <= 4 && AllLetters(g)
    ensures Ungroup(g).Some? && SameBits(g, Ungroup(g).value)
  {
    Few64(g);
    Few256(Ungroup(g).value);
    hide Value, Number64, Base256;
    var a, b := Value(g[0]), if |g| > 1 then Value(g[1]) else 0;
    Sixteenths(b);
    if |g| > 2 { Quarters(Value(g[2])); }
  }

  lemma Sixteenths(b: nat)
    ensures b == 16 * (b / 16) + b % 16
  {
  }

  lemma Quarters(c: nat)
    ensures c == 4 * (c / 4) + c % 4
  {
  }

  /** Letters of the alphabet are decoded bit by bit: every four make three bytes of the same bits, and
      of the last ones the bits that do not fill a byte are dropped. */
  lemma {:induction false} DecodedBits(s: seq<byte>, i: nat)
    requires AllLetters(s) && 4 * i < |s|
    ensures Decoded(s).Some?
    ensures var b, e := Decoded(s).value, Min(4 * i + 4, |s|);
            && 3 * i <= |b| && (e < |s| ==> 3 * i + 3 <= |b|)
            && SameBits(s[4 * i..e], if e < |s| then b[3 * i..3 * i + 3] else b[3 * i..])
    decreases |s|
  {
    hide Value, SameBits;
    var g := s[..Min(4, |s|)];
    GroupBits(g);
    assert s[0..Min(4, |s|)] == g;
    if |s| <= 4 {
      assert g == s;
      assert Decoded(s).value[0..] == Decoded(s).value;
    } else {
      var t := s[4..];
      FullGroup(g);
      DecodedBits(t, if i == 0 then 0 else i - 1);
      var h, c := Ungroup(g).value, Decoded(t).value;
      assert Decoded(s) == Some(h + c);
      if i == 0 {
        assert (h + c)[0..3] == h;
      } else {
        var e := Min(4 * (i - 1) + 4, |t|);
        assert t[4 * (i - 1)..e] == s[4 * i..e + 4];
        assert (h + c)[3 * i..] == c[3 * (i - 1)..];
        assert e < |t| ==> (h + c)[3 * i..3 * i + 3] == c[3 * (i - 1)..3 * (i - 1) + 3];
      }
    }
  }

  lemma FullGroup(g: seq<byte>)
    requires |g| == 4 && AllLetters(g)
    ensures Ungroup(g).Some? && |Ungroup(g).value| == 3
  {
  }

  /** All the '=' signs at the end go, and nothing else. */
  lemma {:induction false} UnpaddedIs(s: seq<byte>)
    ensures var u := Unpadded(s);
            && u <= s && (u != [] ==> u[|u| - 1] != '=' as int)
            && forall i :: |u| <= i < |s| ==> s[i] == '=' as int
  {
    if s != [] && s[|s| - 1] == 61 {
      UnpaddedIs(s[..|s| - 1]);
    }
  }
}
