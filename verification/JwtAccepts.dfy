/** Which tokens jwt_user_for_ (src/auth/auth.c) accepts, and which jwt_issue_ writes, said of the
    letters of the token rather than by the readers. */
module JwtAccepts {
  import opened Bytes
  import opened Base64Url
  import opened Jwt
  import D = Decimal

  // ------------------------------------------------------------------- the fixed texts

  lemma HeaderSpelled(alg: Alg)
    ensures Header(alg) == Ascii("{\"alg\":\"") + Ascii(Named(alg)) + Ascii("\",\"typ\":\"JWT\"}")
  {
    assert HEADER_HEAD == Ascii("{\"alg\":\"");
    assert HEADER_TAIL == Ascii("\",\"typ\":\"JWT\"}");
    PatternsSpelled(alg);
  }

  lemma PayloadSpelled(user: Name, rev: u64, exp: u64)
    ensures Payload(user, rev, exp)
         == Ascii("{\"username\":\"") + user + Ascii("\",\"revision\":") + D.Printed(rev)
            + Ascii(",\"exp\":") + D.Printed(exp) + Ascii("}")
  {
    assert TEXT_USER == Ascii("{\"username\":\"");
    assert TEXT_REV == Ascii("\",\"revision\":");
    assert TEXT_EXP == Ascii(",\"exp\":");
    assert TEXT_END == Ascii("}");
  }

  lemma PatternsSpelled(alg: Alg)
    ensures KEY_USER == Ascii("\"username\":\"") && KEY_REV == Ascii("\"revision\":") && KEY_EXP == Ascii("\"exp\":")
    ensures NONE_ALG == Ascii("\"none\"") && AlgName(alg) == Ascii(Named(alg))
  {
  }

  function Named(alg: Alg): (s: string)
    ensures forall i :: 0 <= i < |s| ==> s[i] < 128 as char
  {
    match alg
    case HS256 => "HS256"
    case RS256 => "RS256"
    case ES256 => "ES256"
  }

  // --------------------------------------------------------------- what is accepted

  ghost predicate At(s: seq<byte>, text: seq<byte>, i: nat) {
    i <= |s| && text <= s[i..]
  }

  ghost predicate FirstAt(s: seq<byte>, text: seq<byte>, i: nat) {
    At(s, text, i) && forall j :: 0 <= j < i ==> !At(s, text, j)
  }

  ghost predicate Occurs(s: seq<byte>, text: seq<byte>) {
    exists i :: At(s, text, i)
  }

  /** The text between the first `key` and the next quote: at most 127 characters, none of them a
      backslash or a control character. */
  ghost predicate SaysText(s: seq<byte>, key: seq<byte>, u: Name) {
    && (exists i: nat :: FirstAt(s, key, i) && At(s, u + Ascii("\""), i + |key|))
    && |u| <= 127
    && forall k :: 0 <= k < |u| ==> u[k] >= 0x20 && u[k] != 34 && u[k] != 92
  }

  /** The digits from `p` to `q`, and no further. */
  ghost predicate DigitsTo(s: seq<byte>, p: nat, q: nat) {
    && p < q <= |s|
    && D.AllDigits(s[p..q])
    && (q < |s| ==> !D.IsDigit(s[q]))
  }

  /** The digits right behind the first `key` are read as `v`. */
  ghost predicate SaysNumber(s: seq<byte>, key: seq<byte>, v: u64) {
    exists i: nat :: FirstAt(s, key, i) && NumberAt(s, i + |key|, v)
  }

  ghost predicate NumberAt(s: seq<byte>, p: nat, v: u64) {
    exists q: nat :: DigitsTo(s, p, q) && D.Accumulated(s[p..q]) == Some(v)
  }

  ghost predicate SaysClaims(pay: seq<byte>, u: Name, exp: u64) {
    && SaysText(pay, Ascii("\"username\":\""), u)
    && (exists v :: SaysNumber(pay, Ascii("\"revision\":"), v))
    && SaysNumber(pay, Ascii("\"exp\":"), exp)
  }

  /** Two dots, at `p` and `q`, and something before, between and after them. */
  ghost predicate Dotted(token: seq<byte>, p: nat, q: nat) {
    && 0 < p && p + 1 < q && q + 1 < |token|
    && forall i :: 0 <= i < |token| ==> (token[i] == 46 <==> i == p || i == q)
  }

  ghost predicate Reads(part: seq<byte>, cap: nat, b: seq<byte>) {
    Decoded(Unpadded(part)) == Some(b) && |b| <= cap
  }

  /** The three parts are the letters of `hdr`, `pay` and `mac`. */
  ghost predicate Parts(token: seq<byte>, p: nat, q: nat, hdr: seq<byte>, pay: seq<byte>, mac: seq<byte>) {
    && Dotted(token, p, q)
    && Reads(token[..p], 127, hdr) && Reads(token[p + 1..q], 511, pay) && Reads(token[q + 1..], 1024, mac)
  }

  /** Three parts that decode, a header that names the algorithm and not "none", an accepted
      signature of the first two parts, and a payload that names `u`, a revision and an expiry. */
  ghost predicate Presents(
    alg: Alg, verify: (seq<byte>, seq<byte>) -> bool, token: seq<byte>,
    p: nat, q: nat, hdr: seq<byte>, pay: seq<byte>, mac: seq<byte>, u: Name, exp: u64)
  {
    && Parts(token, p, q, hdr, pay, mac)
    && Occurs(hdr, Ascii(Named(alg))) && !Occurs(hdr, Ascii("\"none\""))
    && verify(token[..q], mac)
    && SaysClaims(pay, u, exp)
  }

  /** A token resolves to `u` if and only if `u` is known, the token presents `u`, and its expiry
      is still to come. */
  lemma ResolvesIff(
    alg: Alg, verify: (seq<byte>, seq<byte>) -> bool, known: set<Name>, token: seq<byte>, now: u64, u: Name)
    ensures Resolved(alg, verify, known, token, now) == Some(u)
            <==> u in known && exists p: nat, q: nat, hdr, pay, mac, exp: u64 ::
                   Presents(alg, verify, token, p, q, hdr, pay, mac, u, exp) && now < exp * 1_000_000_000
  {
    hide Resolved, Claimed, SaysClaims, HeaderOk, Occurs, Reads, Named;
    if Resolved(alg, verify, known, token, now) == Some(u) {
      var p, q, hdr, pay, mac := PartsFound(alg, verify, known, token, now);
      HeaderOkIff(alg, hdr);
      var exp := ClaimsFound(pay, known, now, u);
      assert Presents(alg, verify, token, p, q, hdr, pay, mac, u, exp);
    }
    forall p: nat, q: nat, hdr, pay, mac, exp: u64 |
      Presents(alg, verify, token, p, q, hdr, pay, mac, u, exp) && now < exp * 1_000_000_000 && u in known
      ensures Resolved(alg, verify, known, token, now) == Some(u)
    {
      HeaderOkIff(alg, hdr);
      PartsGive(alg, verify, known, token, now, p, q, hdr, pay, mac);
      ClaimsGive(pay, known, now, u, exp);
    }
  }

  lemma Later(now: u64, exp: u64)
    ensures now / 1_000_000_000 < exp <==> now < exp * 1_000_000_000
  {
  }

  // ------------------------------------------------------------------------- searching

  lemma AtIsHit(s: seq<byte>, text: seq<byte>, i: nat)
    ensures At(s, text, i) <==> HitAt(s, text, i)
  {
    if i + |text| <= |s| {
      assert s[i..][..|text|] == s[i..i + |text|];
    }
  }

  lemma FirstIs(s: seq<byte>, text: seq<byte>, i: nat)
    ensures FirstHit(s, text, 0) == Some(i) <==> FirstAt(s, text, i)
  {
    hide At, HitAt;
    forall j: nat ensures At(s, text, j) <==> HitAt(s, text, j) { AtIsHit(s, text, j); }
    var r := FirstHit(s, text, 0);
    hide FirstHit;
    if FirstAt(s, text, i) {
      assert r.Some? && r.value == i;
    }
  }

  lemma OccursIff(s: seq<byte>, text: seq<byte>)
    ensures FirstHit(s, text, 0).Some? <==> Occurs(s, text)
  {
    hide At, HitAt;
    forall j: nat ensures At(s, text, j) <==> HitAt(s, text, j) { AtIsHit(s, text, j); }
    var r := FirstHit(s, text, 0);
    hide FirstHit;
    if r.Some? {
      assert At(s, text, r.value);
    }
  }

  lemma HeaderOkIff(alg: Alg, hdr: seq<byte>)
    ensures HeaderOk(alg, hdr) <==> Occurs(hdr, Ascii(Named(alg))) && !Occurs(hdr, Ascii("\"none\""))
  {
    hide FirstHit, Occurs;
    PatternsSpelled(alg);
    OccursIff(hdr, AlgName(alg));
    OccursIff(hdr, NONE_ALG);
  }

  // --------------------------------------------------------------------------- claims

  ghost predicate TextAt(s: seq<byte>, p: nat, u: Name, cap: nat) {
    && At(s, u + [QUOTE], p)
    && (u == [] || |u| < cap)
    && forall k :: 0 <= k < |u| ==> u[k] >= 0x20 && u[k] != QUOTE && u[k] != BACKSLASH
  }

  lemma {:induction false} QuotedIff(s: seq<byte>, p: nat, cap: nat, u: Name)
    requires p <= |s|
    ensures Quoted(s, p, cap) == Some(u) <==> TextAt(s, p, u, cap)
    decreases |s| - p
  {
    assert p < |s| ==> s[p..][0] == s[p];
    assert (u + [QUOTE])[0] == if u == [] then QUOTE else u[0];
    assert At(s, u + [QUOTE], p) ==> p < |s| && s[p] == (u + [QUOTE])[0];
    if p < |s| && s[p] != QUOTE && u != [] && cap > 1 {
      QuotedIff(s, p + 1, cap - 1, u[1..]);
      TextFurther(s, p, u, cap);
      assert u == [u[0]] + u[1..];
    }
  }

  lemma TextFurther(s: seq<byte>, p: nat, u: Name, cap: nat)
    requires p < |s| && s[p] != QUOTE && u != [] && cap > 1
    ensures TextAt(s, p, u, cap)
            <==> u[0] == s[p] && s[p] >= 0x20 && s[p] != BACKSLASH && TextAt(s, p + 1, u[1..], cap - 1)
  {
    assert u == [u[0]] + u[1..];
    assert s[p..] == [s[p]] + s[p + 1..];
    assert u + [QUOTE] == [u[0]] + (u[1..] + [QUOTE]);
    assert forall k :: 0 < k < |u| ==> u[k] == u[1..][k - 1];
  }

  lemma ClaimTextIff(s: seq<byte>, key: seq<byte>, u: Name)
    ensures ClaimText(s, key, 128) == Some(u) <==> SaysText(s, key, u)
  {
    hide FirstHit, Quoted, At, FirstAt;
    assert Ascii("\"") == [QUOTE];
    var r := FirstHit(s, key, 0);
    forall i: nat ensures r == Some(i) <==> FirstAt(s, key, i) { FirstIs(s, key, i); }
    if r.Some? {
      AtFits(s, key, r.value);
      QuotedIff(s, r.value + |key|, 128, u);
    }
  }

  lemma AtFits(s: seq<byte>, key: seq<byte>, i: nat)
    requires FirstAt(s, key, i)
    ensures i + |key| <= |s|
  {
  }

  lemma RunTo(s: seq<byte>, p: nat, q: nat)
    requires p < |s| && D.IsDigit(s[p])
    ensures D.RunLength(s, p) == q - p <==> DigitsTo(s, p, q)
  {
    var n := D.RunLength(s, p);
    if DigitsTo(s, p, q) {
      assert forall i :: p <= i < q ==> s[i] == s[p..q][i - p];
    }
  }

  lemma NumberIff(s: seq<byte>, p: nat, v: u64)
    requires p <= |s|
    ensures p < |s| && D.IsDigit(s[p]) && D.Accumulated(D.Run(s, p)) == Some(v) <==> NumberAt(s, p, v)
  {
    hide D.Accumulated;
    if p < |s| && D.IsDigit(s[p]) {
      forall q: nat ensures D.RunLength(s, p) == q - p <==> DigitsTo(s, p, q) { RunTo(s, p, q); }
      assert DigitsTo(s, p, p + D.RunLength(s, p));
    } else {
      forall q: nat ensures !DigitsTo(s, p, q) {
        assert p < q <= |s| ==> s[p..q][0] == s[p];
      }
    }
  }

  lemma ClaimNumberIff(s: seq<byte>, key: seq<byte>, v: u64)
    ensures ClaimNumber(s, key) == Some(v) <==> SaysNumber(s, key, v)
  {
    hide FirstHit, At, FirstAt, D.Accumulated, NumberAt, D.Run;
    var r := FirstHit(s, key, 0);
    forall i: nat ensures r == Some(i) <==> FirstAt(s, key, i) { FirstIs(s, key, i); }
    if r.Some? {
      AtFits(s, key, r.value);
      NumberIff(s, r.value + |key|, v);
    }
  }

  lemma ClaimsFound(pay: seq<byte>, known: set<Name>, now: u64, u: Name) returns (exp: u64)
    requires Claimed(pay, known, now) == Some(u)
    ensures u in known && SaysClaims(pay, u, exp) && now < exp * 1_000_000_000
  {
    hide ClaimText, ClaimNumber, SaysText, SaysNumber;
    PatternsSpelled(HS256);
    ClaimTextIff(pay, KEY_USER, u);
    ClaimNumberIff(pay, KEY_REV, ClaimNumber(pay, KEY_REV).value);
    exp := ClaimNumber(pay, KEY_EXP).value;
    ClaimNumberIff(pay, KEY_EXP, exp);
    Later(now, exp);
  }

  lemma ClaimsGive(pay: seq<byte>, known: set<Name>, now: u64, u: Name, exp: u64)
    requires u in known && SaysClaims(pay, u, exp) && now < exp * 1_000_000_000
    ensures Claimed(pay, known, now) == Some(u)
  {
    hide ClaimText, ClaimNumber, SaysText, SaysNumber;
    PatternsSpelled(HS256);
    ClaimTextIff(pay, KEY_USER, u);
    var v :| SaysNumber(pay, KEY_REV, v);
    ClaimNumberIff(pay, KEY_REV, v);
    ClaimNumberIff(pay, KEY_EXP, exp);
    Later(now, exp);
  }

  // ---------------------------------------------------------------------------- parts

  lemma DotsAre(token: seq<byte>, p: nat, q: nat)
    requires Dotted(token, p, q)
    ensures IndexOf(token, DOT, 0) == Some(p) && IndexOf(token, DOT, p + 1) == Some(q) && IndexOf(token, DOT, q + 1) == None
  {
    var a, b, c := IndexOf(token, DOT, 0), IndexOf(token, DOT, p + 1), IndexOf(token, DOT, q + 1);
    hide IndexOf;
    assert token[p] == DOT && token[q] == DOT;
  }

  lemma PartsFound(alg: Alg, verify: (seq<byte>, seq<byte>) -> bool, known: set<Name>, token: seq<byte>, now: u64)
    returns (p: nat, q: nat, hdr: seq<byte>, pay: seq<byte>, mac: seq<byte>)
    requires Resolved(alg, verify, known, token, now).Some?
    ensures Parts(token, p, q, hdr, pay, mac)
    ensures HeaderOk(alg, hdr) && verify(token[..q], mac)
    ensures Resolved(alg, verify, known, token, now) == Claimed(pay, known, now)
  {
    hide Claimed, HeaderOk, Decoded, Unpadded;
    p := IndexOf(token, DOT, 0).value;
    q := IndexOf(token, DOT, p + 1).value;
    hdr, pay, mac := Bounded(token[..p], 127).value, Bounded(token[p + 1..q], 511).value, Bounded(token[q + 1..], 1024).value;
  }

  lemma PartsGive(
    alg: Alg, verify: (seq<byte>, seq<byte>) -> bool, known: set<Name>, token: seq<byte>, now: u64,
    p: nat, q: nat, hdr: seq<byte>, pay: seq<byte>, mac: seq<byte>)
    requires Parts(token, p, q, hdr, pay, mac)
    requires HeaderOk(alg, hdr) && verify(token[..q], mac)
    ensures Resolved(alg, verify, known, token, now) == Claimed(pay, known, now)
  {
    hide Claimed, HeaderOk, Decoded, Unpadded;
    DotsAre(token, p, q);
    hide IndexOf;
  }

  // ------------------------------------------------------------------------- issuing

  /** Only the algorithm that wrote a header accepts it. */
  lemma OwnHeaderOnly(a: Alg, b: Alg)
    ensures HeaderOk(a, Header(b)) <==> a == b
  {
    if a == b {
      HeaderAccepted(a);
    } else {
      forall i: nat ensures !HitAt(Header(b), AlgName(a), i) { NoOtherName(a, b, i); }
    }
  }

  lemma NoOtherName(a: Alg, b: Alg, i: nat)
    requires a != b
    ensures !HitAt(Header(b), AlgName(a), i)
  {
    var h, n := Header(b), AlgName(a);
    if i + 5 <= |h| {
      assert h[i..i + 5][0] == h[i];
      if i < 8 {
        assert h[i] == HEADER_HEAD[i];
      } else if i < 13 {
        assert h[i] == AlgName(b)[i - 8];
      } else {
        assert h[i] == HEADER_TAIL[i - 13];
      }
    }
  }

  /** A token written under one algorithm never resolves under another, whatever signatures are
      accepted there. */
  lemma {:induction false} OtherAlgRefuses(
    a: Alg, b: Alg, sign: seq<byte> -> seq<byte>, verify: (seq<byte>, seq<byte>) -> bool,
    known: set<Name>, user: Name, rev: u64, exp: u64, now: u64)
    requires a != b && Issued(b, sign, user, rev, exp).Some?
    ensures Resolved(a, verify, known, Issued(b, sign, user, rev, exp).value, now) == None
  {
    var h, p := Header(b), Payload(user, rev, exp);
    var g := sign(Signing(b, user, rev, exp));
    var token := Issued(b, sign, user, rev, exp).value;
    assert |h| == 27;
    assert 0 < |p| < 256;
    OwnHeaderOnly(a, b);
    hide Payload, Header, Encoded, Bounded, HeaderOk, Claimed;
    EncodedDotFree(h);
    EncodedDotFree(p);
    EncodedDotFree(g);
    BoundedBack(h, 127);
    TokenSplits(Encoded(h), Encoded(p), Encoded(g), token);
    hide IndexOf;
  }

  /** A token is issued if and only if the name has no quote and no backslash, name and numbers
      leave room for the 34 fixed characters in 255, and there is a signature of at most 768
      bytes. */
  lemma IssuedIff(alg: Alg, sign: seq<byte> -> seq<byte>, user: Name, rev: u64, exp: u64)
    ensures Issued(alg, sign, user, rev, exp).Some?
            <==> && 34 !in user && 92 !in user
                 && |user| + |D.Printed(rev)| + |D.Printed(exp)| + 34 <= 255
                 && 0 < |sign(Signing(alg, user, rev, exp))| <= 768
  {
    PayloadLayout(user, rev, exp, Payload(user, rev, exp), |user|, |D.Printed(rev)|);
    hide Payload;
  }

  /** The expiry second: after the moment of issue, at most the time to live (300 seconds when none
      is set) later, or one second if that is shorter, and less than two seconds short of it. */
  lemma ExpiryIs(clock: u64, ttl: u64)
    ensures var life := if ttl != 0 then ttl else 300 * 1_000_000_000;
            var end := Expiry(clock, ttl) * 1_000_000_000;
            && clock < end <= clock + Max(life, 1_000_000_000)
            && clock + life < end + 2 * 1_000_000_000
  {
    var second := 1_000_000_000;
    var life := if ttl != 0 then ttl else 300 * 1_000_000_000;
    assert clock == clock / second * second + clock % second;
    assert life == life / second * second + life % second;
  }
}
