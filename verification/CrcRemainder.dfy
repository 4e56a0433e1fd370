/** CRC32C as the polynomial division it stands for: the message times x^32, divided by the Castagnoli
    polynomial over the field of two elements.  A polynomial is the sequence of its coefficients,
    highest power first. */
module CrcRemainder {
  import opened Bytes
  import opened Crc32c

  type Poly = seq<bool>

  /** x^32 + x^28 + x^27 + ... + x^6 + 1, 0x11EDC6F41 in hexadecimal (section 12.1 of RFC 3720). */
  function Castagnoli(): (g: Poly)
    ensures |g| == 33
  {
    seq(33, k requires 0 <= k < 33 => 32 - k in {32, 28, 27, 26, 25, 23, 22, 20, 19, 18, 14, 13, 11, 10, 9, 8, 6, 0})
  }

  function Zero(n: nat): (z: Poly)
    ensures |z| == n && forall i :: 0 <= i < n ==> !z[i]
  {
    seq(n, _ => false)
  }

  /** The sum of two polynomials of one length. */
  function Sum(a: Poly, b: Poly): (s: Poly)
    requires |a| == |b|
    ensures |s| == |a| && forall i :: 0 <= i < |s| ==> s[i] == (a[i] != b[i])
  {
    seq(|a|, i requires 0 <= i < |a| => a[i] != b[i])
  }

  /** The product with the Castagnoli polynomial, term by term. */
  function Product(q: Poly): (p: Poly)
    ensures |p| == |q| + 32
  {
    if q == [] then Zero(32) else Sum(Term(q[0], |q| - 1), [false] + Product(q[1..]))
  }

  /** The Castagnoli polynomial or 0, times x^n. */
  function Term(on: bool, n: nat): (t: Poly)
    ensures |t| == 33 + n && t[0] == on
  {
    (if on then Castagnoli() else Zero(33)) + Zero(n)
  }

  /** `d` is a multiple of the Castagnoli polynomial and `r`. */
  ghost predicate IsRemainder(d: Poly, r: Poly) {
    && |r| == 32 && |d| >= 32
    && exists q :: Divides(d, q, r)
  }

  ghost predicate Divides(d: Poly, q: Poly, r: Poly)
    requires |r| == 32
  {
    |d| == |q| + 32 && d == Sum(Product(q), Zero(|q|) + r)
  }

  // --------------------------------------------------------- there is one remainder

  lemma {:induction false} QuotientUnique(p: Poly, q: Poly, r: Poly, s: Poly)
    requires |p| == |q| && |r| == |s| == 32 && Sum(Product(p), Zero(|p|) + r) == Sum(Product(q), Zero(|q|) + s)
    ensures p == q && r == s
    decreases |p|
  {
    if p == [] {
      Nothing(r);
      Nothing(s);
    } else {
      hide Term, Product, Sum, Zero;
      var x, y := Sum(Product(p[1..]), Zero(|p| - 1) + r), Sum(Product(q[1..]), Zero(|p| - 1) + s);
      TermAt(p, r, 0);
      TermAt(q, s, 0);
      forall i | 0 <= i < |x| ensures x[i] == y[i] {
        TermAt(p, r, i + 1);
        TermAt(q, s, i + 1);
      }
      QuotientUnique(p[1..], q[1..], r, s);
    }
  }

  lemma Nothing(r: Poly)
    requires |r| == 32
    ensures Sum(Product([]), Zero(0) + r) == r
  {
  }

  /** A coefficient of a product and a remainder: the first is the quotient's, the others are the first
      term's and those of the rest. */
  lemma TermAt(q: Poly, r: Poly, i: nat)
    requires q != [] && |r| == 32 && i < |q| + 32
    ensures var d, t := Sum(Product(q), Zero(|q|) + r), Term(q[0], |q| - 1);
            var rest := Sum(Product(q[1..]), Zero(|q| - 1) + r);
            d[i] == (t[i] != (i > 0 && rest[i - 1])) && t[0] == q[0]
  {
    ProductStep(q);
    hide Term, Product, Sum, Zero;
    Shifted(Product(q[1..]), i);
    Padded(|q|, r, i);
  }

  lemma Shifted(p: Poly, i: nat)
    requires i <= |p|
    ensures ([false] + p)[i] == (i > 0 && p[i - 1])
  {
  }

  lemma Padded(n: nat, r: Poly, i: nat)
    requires n > 0 && i < n + |r|
    ensures (Zero(n) + r)[i] == (i > 0 && (Zero(n - 1) + r)[i - 1])
  {
  }

  lemma ProductStep(q: Poly)
    requires q != []
    ensures Product(q) == Sum(Term(q[0], |q| - 1), [false] + Product(q[1..]))
  {
  }

  lemma RemainderUnique(d: Poly, r: Poly, s: Poly)
    requires IsRemainder(d, r) && IsRemainder(d, s)
    ensures r == s
  {
    var p :| Divides(d, p, r);
    var q :| Divides(d, q, s);
    QuotientUnique(p, q, r, s);
  }

  // --------------------------------------------------- the register is the remainder

  /** The message times x^32, with the register added to its first 32 coefficients. */
  function Dividend(c: Register, bits: seq<bool>): (d: Poly)
    ensures |d| == |bits| + 32
  {
    Sum(bits + Zero(32), c + Zero(|bits|))
  }

  lemma PolyIs()
    ensures Castagnoli() == [true] + POLY
  {
  }

  /** One bit step takes the quotient's first term off. */
  lemma StepDivides(c: Register, bits: seq<bool>)
    requires bits != []
    ensures var q0, rest := c[0] != bits[0], Dividend(BitStep(XorInto(c, bits[..1])), bits[1..]);
            var t := Term(q0, |bits| - 1);
            Dividend(c, bits) == Sum(t, [false] + rest)
  {
    hide Castagnoli;
    PolyIs();
    var d, x := Dividend(c, bits), XorInto(c, bits[..1]);
    var c', q0 := BitStep(x), c[0] != bits[0];
    var rest := Dividend(c', bits[1..]);
    var t := Term(q0, |bits| - 1);
    StepBits(c, bits[0]);
    forall i | 0 <= i < |d| ensures d[i] == (t[i] != ([false] + rest)[i]) {
      if i > 0 {
        assert ([false] + rest)[i] == rest[i - 1];
        assert (bits + Zero(32))[i] == (bits[1..] + Zero(32))[i - 1];
      }
    }
  }

  lemma StepBits(c: Register, b: bool)
    ensures var c', q0 := BitStep(XorInto(c, [b])), c[0] != b;
            forall i :: 0 <= i < 32 ==> c'[i] == ((i < 31 && c[i + 1]) != (q0 && POLY[i]))
  {
    var x := XorInto(c, [b]);
    assert x[0] == (c[0] != b) && forall i :: 1 <= i < 32 ==> x[i] == c[i];
  }

  lemma {:induction false} DivideIsRemainder(c: Register, bits: seq<bool>) returns (q: Poly)
    ensures Divides(Dividend(c, bits), q, Divide(c, bits)) && |q| == |bits|
    decreases |bits|
  {
    var d := Dividend(c, bits);
    if bits == [] {
      q := [];
      assert d == Sum(Product(q), Zero(0) + c);
    } else {
      hide BitStep, XorInto, Term, Product, Sum, Zero, Dividend;
      var c' := BitStep(XorInto(c, bits[..1]));
      var r := Divide(c', bits[1..]);
      var p := DivideIsRemainder(c', bits[1..]);
      StepDivides(c, bits);
      q := [c[0] != bits[0]] + p;
      assert q[1..] == p;
      var e, rest := Sum(Product(q), Zero(|q|) + r), Dividend(c', bits[1..]);
      assert rest == Sum(Product(p), Zero(|p|) + r);
      forall i | 0 <= i < |d| ensures d[i] == e[i] {
        TermAt(q, r, i);
        if i > 0 { assert ([false] + rest)[i] == rest[i - 1]; }
      }
    }
  }

  // ------------------------------------------------------------------- the checksum

  lemma {:induction false} LowBitsAre(x: nat, n: nat, k: nat)
    requires k < n
    ensures LowBits(x, n)[k] == BitOf(x, k)
    decreases n
  {
    if k > 0 {
      LowBitsAre(x / 2, n - 1, k - 1);
    }
  }

  /** The bits of a message: its bytes in order, the lowest bit of each first. */
  function Message(data: seq<byte>): (bits: Poly)
    ensures |bits| == 8 * |data|
  {
    seq(8 * |data|, j requires 0 <= j < 8 * |data| => BitOf(data[j / 8], j % 8))
  }

  lemma MessageIs(data: seq<byte>)
    ensures Message(data) == Bits(data)
  {
    hide Bits, LowBits, BitOf;
    forall j | 0 <= j < 8 * |data| ensures Message(data)[j] == Bits(data)[j] {
      BitsAt(data, j / 8);
      LowBitsAre(data[j / 8], 8, j % 8);
      assert Bits(data)[j] == Bits(data)[8 * (j / 8)..8 * (j / 8) + 8][j % 8];
    }
  }

  /** A register or polynomial with every bit inverted. */
  function Inverse(r: Poly): (s: Poly)
    ensures |s| == |r|
  {
    seq(|r|, i requires 0 <= i < |r| => !r[i])
  }

  /** A checksum is the inverse of the one remainder of the message times x^32, to whose first 32 bits the
      inverse of the seed is added.  The lowest bit of a register is its highest power. */
  lemma CrcIsRemainder(crc: Register, data: seq<byte>, r: Poly)
    ensures IsRemainder(Sum(Message(data) + Zero(32), Inverse(crc) + Zero(8 * |data|)), r) <==> r == Inverse(Crc(crc, data))
  {
    hide Divide, Bits, Product, Sum, Castagnoli;
    MessageIs(data);
    assert Inverse(crc) == Complement(crc);
    var c := Divide(Complement(crc), Bits(data));
    assert Inverse(Crc(crc, data)) == c;
    var q := DivideIsRemainder(Complement(crc), Bits(data));
    var d := Dividend(Complement(crc), Bits(data));
    assert Divides(d, q, c);
    if IsRemainder(d, r) { RemainderUnique(d, r, c); }
  }
}
