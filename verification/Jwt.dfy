/** JSON Web Tokens of the authentication store (src/auth/auth.c): jwt_issue_ writes
    header.payload.signature in base64url (section 7.1 of RFC 7515), jwt_user_for_ reads one. */
module Jwt {
  import opened Bytes
  import opened Base64Url
  import D = Decimal

  datatype Alg = HS256 | RS256 | ES256

  function AlgName(alg: Alg): seq<byte> {
    match alg
    case HS256 => [72, 83, 50, 53, 54]
    case RS256 => [82, 83, 50, 53, 54]
    case ES256 => [69, 83, 50, 53, 54]
  }

  const QUOTE: byte := 34
  const BACKSLASH: byte := 92
  const DOT: byte := 46

  // The fixed texts of header and payload, and the patterns looked for in them.
  const HEADER_HEAD: seq<byte> := [123, 34, 97, 108, 103, 34, 58, 34]                          // {"alg":"
  const HEADER_TAIL: seq<byte> := [34, 44, 34, 116, 121, 112, 34, 58, 34, 74, 87, 84, 34, 125] // ","typ":"JWT"}
  const TEXT_USER: seq<byte> := [123, 34, 117, 115, 101, 114, 110, 97, 109, 101, 34, 58, 34]   // {"username":"
  const TEXT_REV: seq<byte> := [34, 44, 34, 114, 101, 118, 105, 115, 105, 111, 110, 34, 58]    // ","revision":
  const TEXT_EXP: seq<byte> := [44, 34, 101, 120, 112, 34, 58]                                 // ,"exp":
  const TEXT_END: seq<byte> := [125]                                                           // }
  const KEY_USER: seq<byte> := [34, 117, 115, 101, 114, 110, 97, 109, 101, 34, 58, 34]         // "username":"
  const KEY_REV: seq<byte> := [34, 114, 101, 118, 105, 115, 105, 111, 110, 34, 58]             // "revision":
  const KEY_EXP: seq<byte> := [34, 101, 120, 112, 34, 58]                                      // "exp":
  const NONE_ALG: seq<byte> := [34, 110, 111, 110, 101, 34]                                    // "none"

  function Header(alg: Alg): seq<byte> {
    HEADER_HEAD + AlgName(alg) + HEADER_TAIL
  }

  function Payload(user: Name, rev: u64, exp: u64): seq<byte> {
    TEXT_USER + user + TEXT_REV + D.Printed(rev) + TEXT_EXP + D.Printed(exp) + TEXT_END
  }

  // ----------------------------------------------------------------------- searching

  predicate HitAt(s: seq<byte>, pat: seq<byte>, i: nat) {
    i + |pat| <= |s| && s[i..i + |pat|] == pat
  }

  /** The first occurrence of `pat` at or after `i`. */
  function FirstHit(s: seq<byte>, pat: seq<byte>, i: nat): (r: Option<nat>)
    ensures r.Some? ==> i <= r.value && HitAt(s, pat, r.value) && forall j :: i <= j < r.value ==> !HitAt(s, pat, j)
    ensures r.None? ==> forall j :: i <= j ==> !HitAt(s, pat, j)
    decreases |s| - i
  {
    if i + |pat| > |s| then None
    else if HitAt(s, pat, i) then Some(i)
    else FirstHit(s, pat, i + 1)
  }

  /** The search loop of find_bytes_ and of the two claim readers. */
  method FindBytes(s: seq<byte>, pat: seq<byte>) returns (r: Option<nat>)
    ensures r == FirstHit(s, pat, 0)
  {
    var i := 0;
    while i + |pat| <= |s|
      invariant i <= |s| + 1
      invariant FirstHit(s, pat, 0) == FirstHit(s, pat, i)
    {
      if s[i..i + |pat|] == pat { return Some(i); }
      i := i + 1;
    }
    return None;
  }

  /** strchr. */
  function IndexOf(s: seq<byte>, c: byte, i: nat): (r: Option<nat>)
    requires i <= |s|
    ensures r.Some? ==> i <= r.value < |s| && s[r.value] == c && forall j :: i <= j < r.value ==> s[j] != c
    ensures r.None? ==> forall j :: i <= j < |s| ==> s[j] != c
    decreases |s| - i
  {
    if i == |s| then None else if s[i] == c then Some(i) else IndexOf(s, c, i + 1)
  }

  // -------------------------------------------------------------------- reading claims

  /** The characters up to the next quote: no backslash, no control character, and fewer
      than `cap` of them. */
  function Quoted(s: seq<byte>, p: nat, cap: nat): Option<seq<byte>>
    requires p <= |s|
    decreases |s| - p
  {
    if p == |s| then None
    else if s[p] == QUOTE then Some([])
    else if s[p] == BACKSLASH || s[p] < 0x20 then None
    else if cap <= 1 then None
    else
      match Quoted(s, p + 1, cap - 1)
      case None => None
      case Some(t) => Some([s[p]] + t)
  }

  function ClaimText(s: seq<byte>, key: seq<byte>, cap: nat): Option<seq<byte>> {
    match FirstHit(s, key, 0)
    case None => None
    case Some(i) => Quoted(s, i + |key|, cap)
  }

  function ClaimNumber(s: seq<byte>, key: seq<byte>): Option<u64> {
    match FirstHit(s, key, 0)
    case None => None
    case Some(i) =>
      var p := i + |key|;
      if p < |s| && D.IsDigit(s[p]) then D.Accumulated(D.Run(s, p)) else None
  }

  /** jwt_claim_str_ with the pattern already built. */
  method ReadText(s: seq<byte>, key: seq<byte>, cap: nat) returns (r: Option<seq<byte>>)
    requires cap > 0
    ensures r == ClaimText(s, key, cap)
  {
    if |s| < |key| { return None; }
    var hit := FindBytes(s, key);
    if hit.None? { return None; }
    var p := hit.value + |key|;
    var start := p;
    var out: seq<byte> := [];
    PrependNothing(Quoted(s, start, cap));
    while p < |s| && s[p] != QUOTE
      invariant start <= p <= |s| && |out| == p - start
      invariant |out| < cap
      invariant Quoted(s, start, cap) == Prepend(out, Quoted(s, p, cap - |out|))
    {
      if s[p] == BACKSLASH || s[p] < 0x20 { return None; }
      if |out| + 1 >= cap { return None; }
      PrependTwice(out, [s[p]], Quoted(s, p + 1, cap - |out| - 1));
      out := out + [s[p]];
      p := p + 1;
    }
    if p >= |s| || s[p] != QUOTE { return None; }
    assert out + [] == out;
    return Some(out);
  }

  /** jwt_claim_u64_. */
  method ReadNumber(s: seq<byte>, key: seq<byte>) returns (r: Option<u64>)
    ensures r == ClaimNumber(s, key)
  {
    var hit := FindBytes(s, key);
    if hit.None? { return None; }
    var p := hit.value + |key|;
    if p >= |s| || !D.IsDigit(s[p]) { return None; }
    var v, _ := D.ReadRun(s, p);
    return v;
  }

  // ---------------------------------------------------------------------------- issue

  /** The expiry second: whole seconds of the clock and of the time to live, one second more
      when that is less than a second. */
  function Expiry(clock: u64, ttl: u64): u64 {
    var t := (if ttl != 0 then ttl else 300_000_000_000) / 1_000_000_000;
    clock / 1_000_000_000 + t + if t == 0 then 1 else 0
  }

  /** jwt_issue_: the token and the new token counter.  An empty signature stands for failure to
      sign.  `ended` is whether a terminator follows the token: a signature of 768 bytes fills its
      buffer of letters to the end, and the byte copied after it is whatever follows there. */
  method Issue(alg: Alg, sign: seq<byte> -> seq<byte>, user: Name, clock: u64, ttl: u64, counter: u64)
    returns (token: Option<seq<byte>>, ended: bool, counter': u64)
    ensures token == Issued(alg, sign, user, counter', Expiry(clock, ttl))
    ensures token.Some? ==> (ended <==> |sign(Signing(alg, user, counter', Expiry(clock, ttl)))| != 768)
    ensures counter' == if QUOTE in user || BACKSLASH in user then counter else (counter + 1) % TWO_64
  {
    hide Payload, Encoded, Header;
    if QUOTE in user || BACKSLASH in user { return None, true, counter; }
    var hdr := Header(alg);
    HeaderLength(alg);
    var life := if ttl != 0 then ttl else 300_000_000_000;
    var exp := clock / 1_000_000_000 + life / 1_000_000_000;
    if life / 1_000_000_000 == 0 { exp := exp + 1; }
    counter' := (counter + 1) % TWO_64;
    var payload := Payload(user, counter', exp);
    if |payload| >= 256 { return None, true, counter'; }
    PayloadNonempty(user, counter', exp);
    token, ended := Sealed(sign, hdr, payload);
  }

  lemma HeaderLength(alg: Alg)
    ensures 0 < |Header(alg)| <= 47
  {
  }

  lemma PayloadNonempty(user: Name, rev: u64, exp: u64)
    ensures Payload(user, rev, exp) != []
  {
  }

  /** Encode both parts, sign them joined by a dot, and add the encoded signature. */
  method Sealed(sign: seq<byte> -> seq<byte>, hdr: seq<byte>, payload: seq<byte>)
    returns (token: Option<seq<byte>>, ended: bool)
    requires 0 < |hdr| <= 47 && 0 < |payload| < 256
    ensures var d := Encoded(hdr) + [DOT] + Encoded(payload);
            token == if 0 < |sign(d)| <= 768 then Some(d + [DOT] + Encoded(sign(d))) else None
    ensures token.Some? ==> (ended <==> |sign(Encoded(hdr) + [DOT] + Encoded(payload))| != 768)
  {
    ended := true;
    var hb := Encode(hdr, 64);
    var pb := Encode(payload, 400);
    EncodedLength(hdr);
    EncodedLength(payload);
    if hb == [] || pb == [] { return None, true; }
    var signing := hb + [DOT] + pb;
    if |signing| >= 512 { return None, true; }
    var sig := sign(signing);
    var sb := Encode(sig, 1024);
    EncodedLength(sig);
    if sb == [] { return None, true; }
    if |signing| + 1 + |sb| >= 2048 { return None, true; }
    ended := |sb| < 1024;
    return Some(signing + [DOT] + sb), ended;
  }

  /** What is signed. */
  function Signing(alg: Alg, user: Name, rev: u64, exp: u64): seq<byte> {
    Encoded(Header(alg)) + [DOT] + Encoded(Payload(user, rev, exp))
  }

  /** A token is refused only for a quote or backslash in the name, a payload that does not fit its
      256-byte buffer, or a signature that is missing or does not fit its 1024 letters. */
  function Issued(alg: Alg, sign: seq<byte> -> seq<byte>, user: Name, rev: u64, exp: u64): Option<seq<byte>> {
    if QUOTE in user || BACKSLASH in user || |Payload(user, rev, exp)| >= 256 then None
    else
      var d := Signing(alg, user, rev, exp);
      if 0 < |sign(d)| <= 768 then Some(d + [DOT] + Encoded(sign(d))) else None
  }

  // --------------------------------------------------------------------------- resolve

  function Bounded(s: seq<byte>, cap: nat): Option<seq<byte>> {
    var d := Decoded(Unpadded(s));
    if d.None? || |d.value| > cap then None else d
  }

  /** The claims of a payload, once the signature is accepted. */
  function Claimed(pay: seq<byte>, known: set<Name>, now: u64): Option<Name> {
    match ClaimText(pay, KEY_USER, 128)
    case None => None
    case Some(user) =>
      match ClaimNumber(pay, KEY_REV)
      case None => None
      case Some(_) =>
        match ClaimNumber(pay, KEY_EXP)
        case None => None
        case Some(exp) =>
          if now / 1_000_000_000 >= exp || user !in known then None else Some(user)
  }

  predicate HeaderOk(alg: Alg, hdr: seq<byte>) {
    FirstHit(hdr, AlgName(alg), 0).Some? && FirstHit(hdr, NONE_ALG, 0).None?
  }

  function Resolved(alg: Alg, verify: (seq<byte>, seq<byte>) -> bool, known: set<Name>, token: seq<byte>, now: u64): Option<Name>
  {
    match IndexOf(token, DOT, 0)
    case None => None
    case Some(p1) =>
      match IndexOf(token, DOT, p1 + 1)
      case None => None
      case Some(p2) =>
        if IndexOf(token, DOT, p2 + 1).Some? then None
        else if p1 == 0 || p2 == p1 + 1 || p2 + 1 == |token| then None
        else
          var hdr, pay, mac := Bounded(token[..p1], 127), Bounded(token[p1 + 1..p2], 511), Bounded(token[p2 + 1..], 1024);
          if hdr.None? || pay.None? || mac.None? then None
          else if !HeaderOk(alg, hdr.value) then None
          else if !verify(token[..p2], mac.value) then None
          else Claimed(pay.value, known, now)
  }

  /** The last part of jwt_user_for_. */
  method ReadClaims(pay: seq<byte>, known: set<Name>, now: u64) returns (user: Option<Name>)
    ensures user == Claimed(pay, known, now)
  {
    hide ClaimText, ClaimNumber;
    var name := ReadText(pay, KEY_USER, 128);
    if name.None? { return None; }
    var rev := ReadNumber(pay, KEY_REV);
    if rev.None? { return None; }
    var exp := ReadNumber(pay, KEY_EXP);
    if exp.None? { return None; }
    var nowS := now / 1_000_000_000;
    if nowS >= exp.value { return None; }
    if name.value !in known { return None; }
    return name;
  }

  /** jwt_user_for_. */
  method UserFor(alg: Alg, verify: (seq<byte>, seq<byte>) -> bool, known: set<Name>, token: seq<byte>, now: u64)
    returns (user: Option<Name>)
    ensures user == Resolved(alg, verify, known, token, now)
  {
    hide Claimed, Decoded, Unpadded, FirstHit;
    var p1 := IndexOf(token, DOT, 0);
    if p1.None? { return None; }
    var p2 := IndexOf(token, DOT, p1.value + 1);
    if p2.None? { return None; }
    if IndexOf(token, DOT, p2.value + 1).Some? { return None; }
    hide IndexOf;
    var hlen, plen, slen := p1.value, p2.value - (p1.value + 1), |token| - (p2.value + 1);
    if hlen == 0 || plen == 0 || slen == 0 { return None; }
    var hdr := Decode(token[..p1.value], 127);
    if hdr.None? { return None; }
    var pay := Decode(token[p1.value + 1..p2.value], 511);
    if pay.None? { return None; }
    var mac := Decode(token[p2.value + 1..], 1024);
    if mac.None? { return None; }
    var named := FindBytes(hdr.value, AlgName(alg));
    var none := FindBytes(hdr.value, NONE_ALG);
    if named.None? || none.Some? { return None; }
    if !verify(token[..hlen + 1 + plen], mac.value) { return None; }
    user := ReadClaims(pay.value, known, now);
  }

  // ------------------------------------------------------------------------- round trip

  /** Name characters the claim reader accepts. */
  predicate Plain(user: Name) {
    forall i :: 0 <= i < |user| ==> user[i] >= 0x20
  }

  lemma NoHit(s: seq<byte>, pat: seq<byte>, i: nat, j: nat)
    requires j < |pat| && i + j < |s| && s[i + j] != pat[j]
    ensures !HitAt(s, pat, i)
  {
    assert i + |pat| <= |s| ==> s[i..i + |pat|][j] == s[i + j];
  }

  lemma FirstHitIs(s: seq<byte>, pat: seq<byte>, at: nat)
    requires HitAt(s, pat, at) && forall i :: 0 <= i < at ==> !HitAt(s, pat, i)
    ensures FirstHit(s, pat, 0) == Some(at)
  {
  }

  lemma HeaderAccepted(alg: Alg)
    ensures HeaderOk(alg, Header(alg))
  {
    var h := Header(alg);
    assert |h| == 27;
    assert h[8..13] == AlgName(alg);
    assert HitAt(h, AlgName(alg), 8);
    forall i | 0 <= i && HitAt(h, NONE_ALG, i) ensures false {
      assert h[i + 1] == h[i..i + 6][1] == NONE_ALG[1] == 110;
      NoSmallN(alg, i + 1);
    }
  }

  lemma NoSmallN(alg: Alg, i: nat)
    requires i < |Header(alg)|
    ensures Header(alg)[i] != 110
  {
    var h := Header(alg);
    if i < 8 {
      assert h[i] == HEADER_HEAD[i];
    } else if i < 13 {
      assert h[i] == AlgName(alg)[i - 8];
    } else {
      assert h[i] == HEADER_TAIL[i - 13];
    }
  }

  /** The payload piece by piece: where each text starts. */
  lemma PayloadLayout(user: Name, rev: u64, exp: u64, s: seq<byte>, n: nat, d: nat)
    requires s == Payload(user, rev, exp) && n == |user| && d == |D.Printed(rev)|
    ensures |s| == 34 + n + d + |D.Printed(exp)|
    ensures s[..13] == TEXT_USER
    ensures s[13..13 + n] == user
    ensures s[13 + n..26 + n] == TEXT_REV
    ensures s[26 + n..26 + n + d] == D.Printed(rev)
    ensures s[26 + n + d..33 + n + d] == TEXT_EXP
    ensures s[33 + n + d..33 + n + d + |D.Printed(exp)|] == D.Printed(exp)
    ensures s[33 + n + d + |D.Printed(exp)|] == 125
  {
    var a, b, c, e, f, g, h := TEXT_USER, user, TEXT_REV, D.Printed(rev), TEXT_EXP, D.Printed(exp), TEXT_END;
    assert s == a + b + c + e + f + g + h;
    hide Payload;
    PieceAt(a + b + c + e + f + g, h, s);
    PieceAt(a + b + c + e + f, g, s);
    PieceAt(a + b + c + e, f, s);
    PieceAt(a + b + c, e, s);
    PieceAt(a + b, c, s);
    PieceAt(a, b, s);
  }

  lemma PieceAt(before: seq<byte>, piece: seq<byte>, s: seq<byte>)
    requires before + piece <= s
    ensures before <= s && s[|before|..|before| + |piece|] == piece
  {
  }

  /** A claim pattern: quoted key and colon, with a first letter unlike the characters
      that follow the other quotes of the payload. */
  ghost predicate KeyPattern(pat: seq<byte>) {
    && |pat| >= 4
    && pat[0] == 34 && pat[|pat| - 2] == 34 && pat[|pat| - 1] == 58
    && (forall k :: 0 < k < |pat| - 2 ==> pat[k] != 34)
    && pat[1] != 117 && pat[1] != 58 && pat[1] != 44
  }

  /** The payload up to the key of the revision, for a name without quotes. */
  ghost predicate StartsLikePayload(s: seq<byte>, user: Name) {
    && 26 + |user| <= |s|
    && s[..13] == TEXT_USER
    && s[13..13 + |user|] == user
    && s[13 + |user|..26 + |user|] == TEXT_REV
    && QUOTE !in user
  }

  lemma UserChar(s: seq<byte>, user: Name, i: nat)
    requires StartsLikePayload(s, user) && i < 26 + |user|
    ensures s[i] == if i < 13 then TEXT_USER[i] else if i < 13 + |user| then user[i - 13] else TEXT_REV[i - 13 - |user|]
    ensures 13 <= i < 13 + |user| ==> s[i] != 34
  {
    if i < 13 {
      assert s[i] == s[..13][i];
    } else if i < 13 + |user| {
      assert s[i] == s[13..13 + |user|][i - 13];
      assert user[i - 13] in user;
    } else {
      assert s[i] == s[13 + |user|..26 + |user|][i - 13 - |user|];
    }
  }

  /** No pattern occurs before the revision key, even when the name spells it out: inside the
      quotes of the name the closing quote is followed by a comma, not a colon. */
  lemma NoEarlyHit(s: seq<byte>, user: Name, pat: seq<byte>, i: nat)
    requires StartsLikePayload(s, user) && KeyPattern(pat) && i < 15 + |user|
    ensures !HitAt(s, pat, i)
  {
    var n, m := |user|, |pat| - 2;
    UserChar(s, user, i);
    UserChar(s, user, i + 1);
    if i == 12 {
      if n + 1 < m {
        UserChar(s, user, 13 + n);
        NoHit(s, pat, i, n + 1);
      } else if n + 1 == m {
        UserChar(s, user, 14 + n);
        NoHit(s, pat, i, m + 1);
      } else {
        UserChar(s, user, 12 + m);
        NoHit(s, pat, i, m);
      }
    } else if i == 1 || i == 10 || i == 13 + n {
      NoHit(s, pat, i, 1);
    } else {
      assert s[i] != 34;
      NoHit(s, pat, i, 0);
    }
  }

  lemma UserClaim(s: seq<byte>, user: Name)
    requires StartsLikePayload(s, user)
    ensures FirstHit(s, KEY_USER, 0) == Some(1)
  {
    assert s[1..13] == s[..13][1..] == KEY_USER;
    assert s[0] == s[..13][0] == 123;
    NoHit(s, KEY_USER, 0, 0);
    FirstHitIs(s, KEY_USER, 1);
  }

  lemma RevisionClaim(s: seq<byte>, user: Name)
    requires StartsLikePayload(s, user)
    ensures FirstHit(s, KEY_REV, 0) == Some(15 + |user|)
  {
    var n := |user|;
    assert s[15 + n..26 + n] == s[13 + n..26 + n][2..] == KEY_REV;
    forall i | 0 <= i < 15 + n ensures !HitAt(s, KEY_REV, i) {
      NoEarlyHit(s, user, KEY_REV, i);
    }
    FirstHitIs(s, KEY_REV, 15 + n);
  }

  lemma NoExpiryYet(s: seq<byte>, user: Name, i: nat)
    requires StartsLikePayload(s, user) && i < 26 + |user|
    ensures !HitAt(s, KEY_EXP, i)
  {
    var n := |user|;
    if i < 15 + n {
      NoEarlyHit(s, user, KEY_EXP, i);
    } else {
      UserChar(s, user, i);
      if i == 15 + n || i == 24 + n {
        UserChar(s, user, i + 1);
        NoHit(s, KEY_EXP, i, 1);
      } else {
        NoHit(s, KEY_EXP, i, 0);
      }
    }
  }

  lemma ExpiryClaim(s: seq<byte>, user: Name, d: nat)
    requires StartsLikePayload(s, user) && 33 + |user| + d <= |s|
    requires D.AllDigits(s[26 + |user|..26 + |user| + d])
    requires s[26 + |user| + d..33 + |user| + d] == TEXT_EXP
    ensures FirstHit(s, KEY_EXP, 0) == Some(27 + |user| + d)
  {
    var n := |user|;
    var t := 26 + n + d;
    assert s[t + 1..t + 7] == s[t..t + 7][1..] == KEY_EXP;
    assert s[t] == s[t..t + 7][0] == 44;
    hide StartsLikePayload, FirstHit;
    forall i | 0 <= i < t + 1 ensures !HitAt(s, KEY_EXP, i) {
      if i < 26 + n {
        NoExpiryYet(s, user, i);
      } else {
        if i < t {
          assert D.IsDigit(s[26 + n..26 + n + d][i - 26 - n]);
          assert s[i] == s[26 + n..26 + n + d][i - 26 - n];
        }
        NoHit(s, KEY_EXP, i, 0);
      }
    }
    FirstHitIs(s, KEY_EXP, t + 1);
  }

  /** Reading a name back: itself, unless it holds a control character or is too long. */
  lemma {:induction false} QuotedName(s: seq<byte>, p: nat, user: Name, cap: nat)
    requires p + |user| < |s| && s[p..p + |user|] == user && s[p + |user|] == QUOTE
    requires QUOTE !in user && BACKSLASH !in user
    ensures Quoted(s, p, cap) == if Plain(user) && (user == [] || |user| < cap) then Some(user) else None
    decreases |user|
  {
    if user != [] {
      assert s[p] == s[p..p + |user|][0] == user[0];
      assert user[0] in user;
      var rest := user[1..];
      assert s[p + 1..p + 1 + |rest|] == rest by {
        assert s[p..p + |user|][1..] == s[p + 1..p + |user|];
      }
      assert forall c :: c in rest ==> c in user;
      assert Plain(user) <==> user[0] >= 0x20 && Plain(rest);
      PlainNothing();
      QuotedStep(s, p, cap);
      hide Plain, Quoted;
      if cap > 1 {
        QuotedName(s, p + 1, rest, cap - 1);
      }
      assert user == [user[0]] + rest;
    }
  }

  lemma QuotedStep(s: seq<byte>, p: nat, cap: nat)
    requires p < |s| && s[p] != QUOTE && s[p] != BACKSLASH
    ensures Quoted(s, p, cap) ==
            if s[p] < 0x20 || cap <= 1 || Quoted(s, p + 1, cap - 1).None? then None
            else Some([s[p]] + Quoted(s, p + 1, cap - 1).value)
  {
  }

  lemma {:induction false} NameClaim(s: seq<byte>, user: Name)
    requires StartsLikePayload(s, user) && BACKSLASH !in user
    ensures ClaimText(s, KEY_USER, 128) == if Plain(user) && |user| <= 127 then Some(user) else None
  {
    hide FirstHit, Quoted, Plain;
    UserClaim(s, user);
    UserChar(s, user, 13 + |user|);
    QuotedName(s, 13, user, 128);
    assert user == [] ==> Plain(user) by { PlainNothing(); }
  }

  lemma PlainNothing()
    ensures Plain([])
  {
  }

  lemma {:induction false} PayloadStarts(user: Name, rev: u64, exp: u64, s: seq<byte>)
    requires QUOTE !in user && s == Payload(user, rev, exp)
    ensures StartsLikePayload(s, user)
  {
    PayloadLayout(user, rev, exp, s, |user|, |D.Printed(rev)|);
  }

  lemma {:induction false} RevisionReads(user: Name, rev: u64, exp: u64, s: seq<byte>)
    requires QUOTE !in user && s == Payload(user, rev, exp)
    ensures ClaimNumber(s, KEY_REV) == Some(rev)
  {
    var n, d := |user|, |D.Printed(rev)|;
    PayloadStarts(user, rev, exp, s);
    PayloadLayout(user, rev, exp, s, n, d);
    hide Payload, StartsLikePayload, FirstHit, ClaimNumber, D.Printed, D.IsDigit, HitAt;
    assert !D.IsDigit(44) by { NoDigit(); }
    RevisionClaim(s, user);
    assert s[26 + n + d] == s[26 + n + d..33 + n + d][0] == 44;
    NumberClaim(s, KEY_REV, 15 + n, rev);
  }

  lemma {:induction false} ExpiryReads(user: Name, rev: u64, exp: u64, s: seq<byte>)
    requires QUOTE !in user && s == Payload(user, rev, exp)
    ensures ClaimNumber(s, KEY_EXP) == Some(exp)
  {
    var n, d := |user|, |D.Printed(rev)|;
    PayloadStarts(user, rev, exp, s);
    PayloadLayout(user, rev, exp, s, n, d);
    hide Payload, StartsLikePayload, FirstHit, ClaimNumber, D.Printed;
    ExpiryClaim(s, user, d);
    NumberClaim(s, KEY_EXP, 27 + n + d, exp);
  }

  /** What the claims of an issued payload say. */
  lemma {:induction false} PayloadClaims(user: Name, rev: u64, exp: u64, known: set<Name>, now: u64)
    requires QUOTE !in user && BACKSLASH !in user
    ensures Claimed(Payload(user, rev, exp), known, now) ==
            if Plain(user) && |user| <= 127 && now / 1_000_000_000 < exp && user in known then Some(user) else None
  {
    hide Payload, ClaimText, ClaimNumber;
    var s := Payload(user, rev, exp);
    PayloadStarts(user, rev, exp, s);
    RevisionReads(user, rev, exp, s);
    ExpiryReads(user, rev, exp, s);
    NameClaim(s, user);
  }

  lemma NoDigit()
    ensures !D.IsDigit(44) && !D.IsDigit(125)
  {
  }

  lemma {:induction false} NumberClaim(s: seq<byte>, key: seq<byte>, at: nat, v: u64)
    requires FirstHit(s, key, 0) == Some(at)
    requires var p, ds := at + |key|, D.Printed(v);
             p + |ds| < |s| && s[p..p + |ds|] == ds && !D.IsDigit(s[p + |ds|])
    ensures ClaimNumber(s, key) == Some(v)
  {
    var p, ds := at + |key|, D.Printed(v);
    D.RunIs(s, p, ds);
    assert s[p] == s[p..p + |ds|][0] == ds[0];
    D.PrintedReadsBack(v);
  }

  lemma EncodedDotFree(b: seq<byte>)
    ensures DOT !in Encoded(b)
  {
    forall i | 0 <= i < |Encoded(b)| ensures Encoded(b)[i] != DOT {
      EncodedLetters(b, i);
    }
  }

  /** A token falls apart at its two dots. */
  lemma TokenSplits(a: seq<byte>, b: seq<byte>, c: seq<byte>, token: seq<byte>)
    requires token == a + [DOT] + b + [DOT] + c
    requires DOT !in a && DOT !in b && DOT !in c
    ensures var p1 := |a|;
            var p2 := p1 + 1 + |b|;
            && p2 < |token|
            && IndexOf(token, DOT, 0) == Some(p1)
            && IndexOf(token, DOT, p1 + 1) == Some(p2)
            && IndexOf(token, DOT, p2 + 1) == None
            && token[..p1] == a && token[p1 + 1..p2] == b && token[p2 + 1..] == c
            && token[..p2] == a + [DOT] + b
  {
    var p1 := |a|;
    var p2 := p1 + 1 + |b|;
    assert token[..p1] == a && token[p1] == DOT && token[p1 + 1..p2] == b && token[p2] == DOT && token[p2 + 1..] == c;
    assert token[..p2] == a + [DOT] + b;
    assert forall i :: 0 <= i < p1 ==> token[i] == a[i];
    assert forall i :: p1 < i < p2 ==> token[i] == token[p1 + 1..p2][i - p1 - 1];
    assert forall i :: p2 < i < |token| ==> token[i] == token[p2 + 1..][i - p2 - 1];
  }

  lemma BoundedBack(b: seq<byte>, cap: nat)
    requires |b| <= cap
    ensures Bounded(Encoded(b), cap) == Some(b)
  {
    NoPadding(b);
    RoundTrip(b);
  }

  /** Issue and resolve: a token issued to a user resolves to that user exactly when the user
      is known, the name has at most 127 characters and no control character, and the clock has
      not reached the expiry second. */
  lemma {:induction false} TokenRoundTrip(
    alg: Alg, sign: seq<byte> -> seq<byte>, verify: (seq<byte>, seq<byte>) -> bool,
    known: set<Name>, user: Name, rev: u64, exp: u64, now: u64)
    requires Issued(alg, sign, user, rev, exp).Some? && |sign(Signing(alg, user, rev, exp))| != 768
    ensures var d := Signing(alg, user, rev, exp);
            Resolved(alg, verify, known, Issued(alg, sign, user, rev, exp).value, now) ==
            if verify(d, sign(d)) && Plain(user) && |user| <= 127 && now / 1_000_000_000 < exp && user in known
            then Some(user) else None
  {
    var h, p := Header(alg), Payload(user, rev, exp);
    var d := Signing(alg, user, rev, exp);
    var g := sign(d);
    assert |h| == 27;
    assert 0 < |p| < 256;
    hide Payload, Header, Encoded;
    var token := Issued(alg, sign, user, rev, exp).value;
    HeaderAccepted(alg);
    ResolvedParts(alg, verify, known, h, p, g, token, now);
    PayloadClaims(user, rev, exp, known, now);
  }

  lemma {:induction false} ResolvedParts(
    alg: Alg, verify: (seq<byte>, seq<byte>) -> bool, known: set<Name>,
    h: seq<byte>, p: seq<byte>, g: seq<byte>, token: seq<byte>, now: u64)
    requires 0 < |h| <= 127 && 0 < |p| <= 511 && 0 < |g| <= 1024
    requires token == Encoded(h) + [DOT] + Encoded(p) + [DOT] + Encoded(g)
    requires HeaderOk(alg, h)
    ensures Resolved(alg, verify, known, token, now)
         == if verify(Encoded(h) + [DOT] + Encoded(p), g) then Claimed(p, known, now) else None
  {
    hide Encoded, Bounded, HeaderOk, Claimed;
    EncodedDotFree(h);
    EncodedDotFree(p);
    EncodedDotFree(g);
    EncodedLength(h);
    EncodedLength(p);
    EncodedLength(g);
    BoundedBack(h, 127);
    BoundedBack(p, 511);
    BoundedBack(g, 1024);
    TokenSplits(Encoded(h), Encoded(p), Encoded(g), token);
    hide IndexOf;
  }

  /** A token just issued resolves: its expiry lies after the second of issue. */
  lemma {:induction false} FreshTokenResolves(
    alg: Alg, sign: seq<byte> -> seq<byte>, verify: (seq<byte>, seq<byte>) -> bool,
    known: set<Name>, user: Name, counter: u64, clock: u64, ttl: u64)
    requires var d := Signing(alg, user, counter, Expiry(clock, ttl)); 0 < |sign(d)| < 768 && verify(d, sign(d))
    requires user in known && |user| <= 127 && Plain(user) && QUOTE !in user && BACKSLASH !in user
    ensures Issued(alg, sign, user, counter, Expiry(clock, ttl)).Some?
    ensures Resolved(alg, verify, known, Issued(alg, sign, user, counter, Expiry(clock, ttl)).value, clock) == Some(user)
  {
    hide Issued, Resolved;
    TokenAlwaysIssued(alg, sign, user, counter, Expiry(clock, ttl));
    TokenRoundTrip(alg, sign, verify, known, user, counter, Expiry(clock, ttl), clock);
  }

  /** A name of at most 127 bytes without quote or backslash always gets a token, as far as there is
      a signature that fits. */
  lemma TokenAlwaysIssued(alg: Alg, sign: seq<byte> -> seq<byte>, user: Name, rev: u64, exp: u64)
    requires |user| <= 127 && QUOTE !in user && BACKSLASH !in user
    ensures Issued(alg, sign, user, rev, exp).Some? <==> 0 < |sign(Signing(alg, user, rev, exp))| <= 768
  {
    D.PrintedLengthU64(rev);
    D.PrintedLengthU64(exp);
    PayloadLayout(user, rev, exp, Payload(user, rev, exp), |user|, |D.Printed(rev)|);
  }
}
