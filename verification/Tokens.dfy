/** Simple (opaque) tokens of the authentication store (src/auth/auth.c): issue, lookup with
    expiry, and revocation, over any sequence of operations. */
module Tokens {
  import opened Bytes

  type Token = seq<byte>

  /** cetcd_auth_token_ent: the user name is cut to 127 bytes. */
  datatype Entry = Entry(user: Name, expires: u64)

  const DEFAULT_TTL: u64 := 300_000_000_000

  function Cut(user: Name): Name {
    user[..Min(|user|, 127)]
  }

  // ---------------------------------------------- reference: the table over a history

  /** What happened to the table, in the order it happened; `Issued` names the user the token was
      asked for. */
  datatype Event =
    | Issued(token: Token, user: Name, expires: u64)
    | Dropped(token: Token)
    | UserRevoked(user: Name)
    | AllRevoked
    | Looked(token: Token, now: u64)

  type Table = map<Token, Entry>

  function Apply(m: Table, e: Event): Table {
    match e
    case Issued(t, u, expires) => m[t := Entry(Cut(u), expires)]
    case Dropped(t) => m - {t}
    case UserRevoked(u) => map t | t in m && m[t].user != u :: m[t]
    case AllRevoked => map[]
    case Looked(t, now) => if t in m && now >= m[t].expires then m - {t} else m
  }

  function After(events: seq<Event>): Table {
    if events == [] then map[] else Apply(After(events[..|events| - 1]), events[|events| - 1])
  }

  /** `e` ends the life of token `t` with entry `x`. */
  predicate Ends(e: Event, t: Token, x: Entry) {
    match e
    case Issued(t', _, _) => t' == t
    case Dropped(t') => t' == t
    case UserRevoked(u) => u == x.user
    case AllRevoked => true
    case Looked(t', now) => t' == t && now >= x.expires
  }

  /** Event `i` issued `t` to `u` until `expires`, and nothing has ended it since. */
  ghost predicate AliveFrom(events: seq<Event>, i: nat, t: Token, u: Name, expires: u64) {
    && i < |events| && events[i] == Issued(t, u, expires)
    && forall k :: i < k < |events| ==> !Ends(events[k], t, Entry(Cut(u), expires))
  }

  /** The table holds a token whose last issue nothing has ended, under the name cut short. */
  lemma {:induction false} AliveIsHeld(events: seq<Event>, i: nat, t: Token, u: Name, expires: u64)
    requires AliveFrom(events, i, t, u, expires)
    ensures t in After(events) && After(events)[t] == Entry(Cut(u), expires)
  {
    hide Cut;
    var n := |events| - 1;
    var before := events[..n];
    if i < n {
      assert AliveFrom(before, i, t, u, expires) by {
        assert forall k :: 0 <= k < n ==> before[k] == events[k];
      }
      AliveIsHeld(before, i, t, u, expires);
      assert !Ends(events[n], t, Entry(Cut(u), expires));
    }
  }

  /** Whatever the table holds was issued, and nothing has ended it since. */
  lemma {:induction false} HeldIsAlive(events: seq<Event>, t: Token) returns (i: nat, u: Name)
    requires t in After(events)
    ensures Cut(u) == After(events)[t].user && AliveFrom(events, i, t, u, After(events)[t].expires)
  {
    hide Cut;
    var n := |events| - 1;
    var before, x := events[..n], After(events)[t];
    if events[n].Issued? && events[n].token == t {
      i, u := n, events[n].user;
    } else {
      i, u := HeldIsAlive(before, t);
      assert forall k :: 0 <= k < n ==> before[k] == events[k];
      assert !Ends(events[n], t, x);
      assert After(before)[t] == x;
    }
  }

  /** The answer to a lookup. */
  function Answer(m: Table, t: Token, now: u64): Option<Name> {
    if t in m && now < m[t].expires then Some(m[t].user) else None
  }

  /** A token resolves exactly when it was issued, has not expired, and since then was neither
      issued anew, dropped, revoked, nor seen expired; and it resolves to the first 127 bytes of
      the name it was issued to. */
  lemma ResolvesIff(events: seq<Event>, t: Token, now: u64, v: Name)
    ensures Answer(After(events), t, now) == Some(v)
            <==> exists i: nat, u, e: u64 :: AliveFrom(events, i, t, u, e) && now < e && v == Cut(u)
  {
    hide Cut, After;
    var m := After(events);
    if Answer(m, t, now) == Some(v) {
      var i, u := HeldIsAlive(events, t);
      assert AliveFrom(events, i, t, u, m[t].expires) && now < m[t].expires && v == Cut(u);
    }
    forall i: nat, u, e: u64 | AliveFrom(events, i, t, u, e) && now < e && v == Cut(u)
      ensures Answer(m, t, now) == Some(v)
    {
      AliveIsHeld(events, i, t, u, e);
    }
  }

  lemma CutIsSame(u: Name)
    ensures Cut(u) == u <==> |u| <= 127
  {
    if |u| <= 127 { assert u[..|u|] == u; }
  }

  /** A live token resolves to the user it was issued to if and only if that name has at most 127
      bytes. */
  lemma ResolvesToIssued(events: seq<Event>, i: nat, t: Token, u: Name, expires: u64, now: u64)
    requires AliveFrom(events, i, t, u, expires) && now < expires
    ensures Answer(After(events), t, now) == Some(u) <==> |u| <= 127
  {
    AliveIsHeld(events, i, t, u, expires);
    CutIsSame(u);
  }

  /** Two users, the longer name starting with the shorter: the longer one's token resolves to the
      other, and a password change of the other drops it. */
  lemma LongNameExample(t: Token)
    ensures var short: Name := seq(127, k => 97);
            var long := short + [98];
            && Answer(After([Issued(t, long, 10)]), t, 0) == Some(short)
            && t !in After([Issued(t, long, 10), UserRevoked(short)])
  {
    var short: Name := seq(127, k => 97);
    var long := short + [98];
    assert Cut(long) == short;
    var one, two := [Issued(t, long, 10)], [Issued(t, long, 10), UserRevoked(short)];
    assert one[..0] == [] && two[..1] == one;
    assert After(one) == map[t := Entry(short, 10)];
  }

  /** Once a lookup has seen a token expired it never resolves again, whatever the clock
      does later, until the same token is issued anew. */
  lemma {:induction false} ExpiredForGood(events: seq<Event>, later: seq<Event>, t: Token, seen: u64, now: u64)
    requires Answer(After(events), t, seen) == None
    requires forall k :: 0 <= k < |later| ==> !(later[k].Issued? && later[k].token == t)
    ensures Answer(After(events + [Looked(t, seen)] + later), t, now) == None
  {
    hide Cut, After;
    var all := events + [Looked(t, seen)] + later;
    if Answer(After(all), t, now).Some? {
      var i, u := HeldIsAlive(all, t);
      var e := After(all)[t].expires;
      assert i < |events|;
      assert all[|events|] == Looked(t, seen);
      assert AliveFrom(events, i, t, u, e) by {
        assert forall k :: 0 <= k < |events| ==> events[k] == all[k];
      }
      AliveIsHeld(events, i, t, u, e);
      assert false;
    }
  }

  /** A revocation for `v` ends exactly the tokens of users whose name, cut to 127 bytes, is `v`. */
  lemma RevocationReaches(v: Name, u: Name, t: Token, expires: u64)
    ensures Ends(UserRevoked(v), t, Entry(Cut(u), expires)) <==> (u == v && |v| <= 127) || (|u| > 127 && u[..127] == v)
  {
    CutIsSame(u);
  }

  /** Among these users, a revocation for `v` ends the tokens of all and only `v` if and only if the
      name has at most 127 bytes and no longer name starts with it. */
  lemma RevokesOwnIff(users: set<Name>, v: Name)
    requires v in users
    ensures (forall u :: u in users ==> (Cut(u) == v <==> u == v))
            <==> |v| <= 127 && forall u :: u in users && |u| > 127 ==> u[..127] != v
  {
    CutIsSame(v);
    forall u ensures Cut(u) == v <==> (u == v && |v| <= 127) || (|u| > 127 && u[..127] == v) {
      CutIsSame(u);
    }
    if |v| <= 127 && (forall u :: u in users ==> (Cut(u) == v <==> u == v)) {
      forall u | u in users && |u| > 127 ensures u[..127] != v {
        assert Cut(u) == v <==> u == v;
      }
    }
  }

  /** What a token resolves to after one more event; `missed` is whether that event is a lookup
      that found nothing. */
  function Following(e: Event, t: Token, now: u64, before: Option<Name>, missed: bool): Option<Name> {
    match e
    case Issued(t', u, expires) =>
      if t' != t then before
      else if now >= expires then None
      else Some(if |u| <= 127 then u else u[..127])
    case Dropped(t') => if t' == t then None else before
    case UserRevoked(u) => if before == Some(u) then None else before
    case AllRevoked => None
    case Looked(t', _) => if t' == t && missed then None else before
  }

  /** What one more event does to what a token resolves to, at any time: an issue binds the token
      to the first 127 bytes of the name, dropping it or revoking the user or all unbinds it, a
      lookup unbinds it when that lookup found nothing, and nothing else is affected. */
  lemma NextAnswer(events: seq<Event>, e: Event, t: Token, now: u64)
    ensures Answer(After(events + [e]), t, now) == Following(e, t, now, Answer(After(events), t, now),
                                                              e.Looked? && Answer(After(events), t, e.now).None?)
    ensures Answer(After([]), t, now) == None
  {
    assert (events + [e])[..|events|] == events;
    if e.Issued? {
      assert |e.user| <= 127 ==> e.user[..|e.user|] == e.user;
    }
  }

  // ------------------------------------------------------------- the token's letters

  function HexDigit(v: nat): byte
    requires v < 16
  {
    if v < 10 then 48 + v else 87 + v
  }

  function Hex(raw: seq<byte>): (h: seq<byte>)
    ensures |h| == 2 * |raw|
  {
    if raw == [] then [] else [HexDigit(raw[0] / 16), HexDigit(raw[0] % 16)] + Hex(raw[1..])
  }

  lemma {:induction false} HexAt(raw: seq<byte>, i: nat)
    requires i < |raw|
    ensures Hex(raw)[2 * i] == HexDigit(raw[i] / 16) && Hex(raw)[2 * i + 1] == HexDigit(raw[i] % 16)
  {
    if i > 0 {
      HexAt(raw[1..], i - 1);
      assert Hex(raw)[2 * i] == Hex(raw[1..])[2 * (i - 1)];
      assert Hex(raw)[2 * i + 1] == Hex(raw[1..])[2 * (i - 1) + 1];
    }
  }

  /** Two letters for each byte, the high half first. */
  lemma HexLetters(raw: seq<byte>, i: nat)
    requires i < |raw|
    ensures var letters := Ascii("0123456789abcdef");
            Hex(raw)[2 * i] == letters[raw[i] / 16] && Hex(raw)[2 * i + 1] == letters[raw[i] % 16]
  {
    HexAt(raw, i);
    hide Hex;
    LetterIs(raw[i] / 16);
    LetterIs(raw[i] % 16);
  }

  lemma LetterIs(v: nat)
    requires v < 16
    ensures HexDigit(v) == Ascii("0123456789abcdef")[v]
  {
  }

  lemma HexInjective(a: seq<byte>, b: seq<byte>)
    requires |a| == |b| && Hex(a) == Hex(b)
    ensures a == b
  {
    forall i | 0 <= i < |a| ensures a[i] == b[i] {
      HexAt(a, i);
      HexAt(b, i);
    }
  }

  /** auth_hex_encode_. */
  method HexEncode(raw: seq<byte>) returns (out: seq<byte>)
    ensures out == Hex(raw)
  {
    out := [];
    for i := 0 to |raw|
      invariant out == Hex(raw[..i])
    {
      HexSnoc(raw[..i], raw[i]);
      assert raw[..i] + [raw[i]] == raw[..i + 1];
      out := out + [HexDigit(raw[i] / 16), HexDigit(raw[i] % 16)];
    }
    assert raw[..|raw|] == raw;
  }

  lemma {:induction false} HexSnoc(raw: seq<byte>, b: byte)
    ensures Hex(raw + [b]) == Hex(raw) + [HexDigit(b / 16), HexDigit(b % 16)]
  {
    if raw == [] {
      assert ([] + [b])[1..] == [];
    } else {
      assert (raw + [b])[1..] == raw[1..] + [b];
      HexSnoc(raw[1..], b);
    }
  }

  /** Exclusive or of two numbers of `n` bits. */
  function Xor(a: nat, b: nat, n: nat): (r: nat)
    ensures r < PowerOfTwo(n)
    decreases n
  {
    if n == 0 then 0 else (if a % 2 != b % 2 then 1 else 0) + 2 * Xor(a / 2, b / 2, n - 1)
  }

  function XorByte(a: byte, b: byte): byte {
    assert PowerOfTwo(8) == 256;
    Xor(a, b, 8)
  }

  lemma {:induction false} XorInjective(a: nat, b: nat, c: nat, n: nat)
    requires Xor(a, b, n) == Xor(a, c, n) && b < PowerOfTwo(n) && c < PowerOfTwo(n)
    ensures b == c
    decreases n
  {
    if n > 0 {
      XorInjective(a / 2, b / 2, c / 2, n - 1);
    }
  }

  lemma XorByteInjective(a: byte, b: byte, c: byte)
    requires XorByte(a, b) == XorByte(a, c)
    ensures b == c
  {
    assert PowerOfTwo(8) == 256;
    XorInjective(a, b, c, 8);
  }

  /** The random bytes with the token counter mixed into the first two. */
  function Mixed(raw: seq<byte>, n: u64): (r: seq<byte>)
    requires |raw| == 16
    ensures |r| == 16
  {
    raw[0 := XorByte(raw[0], n % 256)][1 := XorByte(raw[1], n / 256 % 256)]
  }

  lemma {:induction false} XorBits(a: nat, b: nat, n: nat, k: nat)
    requires k < n
    ensures BitOf(Xor(a, b, n), k) <==> BitOf(a, k) != BitOf(b, k)
    decreases n
  {
    assert Xor(a, b, n) / 2 == Xor(a / 2, b / 2, n - 1);
    if k > 0 {
      XorBits(a / 2, b / 2, n - 1, k - 1);
    }
  }

  /** Mixing flips the bits of the first byte that are set in the counter's lowest byte, those of
      the second byte that are set in its next one, and nothing else. */
  lemma MixedBits(raw: seq<byte>, n: u64, i: nat, k: nat)
    requires |raw| == 16 && i < 16 && k < 8
    ensures BitOf(Mixed(raw, n)[i], k)
            <==> BitOf(raw[i], k) != (if i == 0 then BitOf(n % 256, k) else i == 1 && BitOf(n / 256 % 256, k))
  {
    hide BitOf;
    if i < 2 {
      XorBits(raw[i], if i == 0 then n % 256 else n / 256 % 256, 8, k);
    }
  }

  /** Even a random source stuck on one value yields equal tokens only for counters that
      agree modulo 65536. */
  lemma StuckRandomness(raw: seq<byte>, m: u64, n: u64)
    requires |raw| == 16
    ensures Hex(Mixed(raw, m)) == Hex(Mixed(raw, n)) <==> m % 65536 == n % 65536
  {
    hide XorByte;
    if Hex(Mixed(raw, m)) == Hex(Mixed(raw, n)) {
      HexInjective(Mixed(raw, m), Mixed(raw, n));
      MixedInjective(raw, m, n);
    }
    TwoDigits(m);
    TwoDigits(n);
  }

  lemma MixedInjective(raw: seq<byte>, m: u64, n: u64)
    requires |raw| == 16 && Mixed(raw, m) == Mixed(raw, n)
    ensures m % 256 == n % 256 && m / 256 % 256 == n / 256 % 256
  {
    hide XorByte;
    var x, y := Mixed(raw, m), Mixed(raw, n);
    assert x[0] == XorByte(raw[0], m % 256) && y[0] == XorByte(raw[0], n % 256);
    assert x[1] == XorByte(raw[1], m / 256 % 256) && y[1] == XorByte(raw[1], n / 256 % 256);
    XorByteInjective(raw[0], m % 256, n % 256);
    XorByteInjective(raw[1], m / 256 % 256, n / 256 % 256);
  }

  lemma TwoDigits(n: u64)
    ensures n % 65536 == n / 256 % 256 * 256 + n % 256
  {
  }

  // ------------------------------------------------------------------ the C routines

  /** Which allocations of one issue succeed: the entry, the table slot, the returned copy. */
  datatype Alloc = Alloc(entry: bool, slot: bool, copy: bool)

  class TokenStore {
    var users: map<Name, seq<byte>>
    var tokens: Table
    var ttl: u64
    var counter: u64

    constructor ()
      ensures tokens == map[] && users == map[] && ttl == DEFAULT_TTL && counter == 0
    {
      users, tokens, ttl, counter := map[], map[], DEFAULT_TTL, 0;
    }

    /** The random bytes with the counter mixed into the first two, in hex. */
    static method Spell(raw: seq<byte>, counter: u64) returns (hex: Token)
      requires |raw| == 16
      ensures hex == Hex(Mixed(raw, counter))
    {
      var mixed := raw;
      mixed := mixed[0 := XorByte(mixed[0], counter % 256)];
      mixed := mixed[1 := XorByte(mixed[1], counter / 256 % 256)];
      hex := HexEncode(mixed);
    }

    /** `now` is the realtime clock, `raw` the sixteen random bytes. */
    method Issue(user: Name, now: u64, raw: seq<byte>, a: Alloc) returns (token: Option<Token>)
      requires |raw| == 16
      modifies this`tokens, this`counter
      ensures user !in users || !a.entry ==> token == None && tokens == old(tokens) && counter == old(counter)
      ensures user in users && a.entry ==> counter == (old(counter) + 1) % TWO_64
      ensures token.Some? <==> user in users && a.entry && a.slot && a.copy
      ensures user in users && a.entry && !a.slot ==> tokens == old(tokens)
      ensures user in users && a.entry && a.slot ==>
                var t := Hex(Mixed(raw, counter));
                var end := (now + if ttl != 0 then ttl else 300 * 1_000_000_000) % TWO_64;
                if a.copy then token == Some(t) && tokens == Apply(old(tokens), Issued(t, user, end))
                else tokens == Apply(old(tokens), Dropped(t))
    {
      hide Hex, Mixed, Cut;
      if user !in users { return None; }
      if !a.entry { return None; }
      var life := if ttl != 0 then ttl else DEFAULT_TTL;
      var x := Entry(Cut(user), (now + life) % TWO_64);
      counter := (counter + 1) % TWO_64;
      var hex := Spell(raw, counter);
      if !a.slot { return None; }
      assert tokens[hex := x] - {hex} == tokens - {hex};
      tokens := tokens[hex := x];
      if !a.copy {
        tokens := tokens - {hex};
        return None;
      }
      return Some(hex);
    }

    method UserFor(token: Token, now: u64) returns (user: Option<Name>)
      modifies this`tokens
      ensures token != [] ==> user == Answer(old(tokens), token, now)
      ensures token != [] ==> tokens == Apply(old(tokens), Looked(token, now))
      ensures token == [] ==> user == None && tokens == old(tokens)
    {
      if token == [] { return None; }
      if token !in tokens { return None; }
      var x := tokens[token];
      if now >= x.expires {
        tokens := tokens - {token};
        return None;
      }
      return Some(x.user);
    }

    /** The table is walked in `order`; `room` keys can be collected before an allocation
        fails and the walk stops. */
    method RevokeUser(user: Name, order: seq<Token>, room: nat)
      requires Distinct(order) && (forall t :: t in order <==> t in tokens)
      modifies this`tokens
      ensures var all := Matching(old(tokens), user, order);
              tokens == old(tokens) - set t | t in all[..Min(room, |all|)]
      ensures room >= |order| ==> tokens == Apply(old(tokens), UserRevoked(user))
    {
      hide Matching, Apply, Distinct;
      var keys := Collect(tokens, user, order, room);
      Collected(tokens, user, order, room);
      tokens := DropAll(tokens, keys);
    }

    method RevokeAll()
      modifies this`tokens
      ensures tokens == Apply(old(tokens), AllRevoked)
    {
      tokens := map[];
    }

    /** cetcd_auth_set_user_hash: a new password hash, and the user's tokens go. */
    method SetUserHash(name: Name, hash: seq<byte>, order: seq<Token>, room: nat) returns (rc: HashStatus)
      requires Distinct(order) && (forall t :: t in order <==> t in tokens)
      modifies this`users, this`tokens
      ensures rc == if name == [] || !(0 < |hash| <= 64) then Invalid
                    else if name !in old(users) then Unknown else Changed
      ensures users == if rc.Changed? then old(users)[name := hash] else old(users)
      ensures !rc.Changed? ==> tokens == old(tokens)
      ensures rc.Changed? && room >= |order| ==> tokens == Apply(old(tokens), UserRevoked(name))
    {
      if name == [] { return Invalid; }
      if |hash| == 0 || |hash| > 64 { return Invalid; }
      if name !in users { return Unknown; }
      users := users[name := hash];
      RevokeUser(name, order, room);
      return Changed;
    }
  }

  datatype HashStatus = Invalid | Unknown | Changed

  /** The tokens of `user` in the order of the walk. */
  function Matching(m: Table, user: Name, order: seq<Token>): seq<Token> {
    if order == [] then []
    else if order[0] in m && m[order[0]].user == user then [order[0]] + Matching(m, user, order[1..])
    else Matching(m, user, order[1..])
  }

  lemma {:induction false} MatchingConcat(m: Table, user: Name, a: seq<Token>, b: seq<Token>)
    ensures Matching(m, user, a + b) == Matching(m, user, a) + Matching(m, user, b)
  {
    if a == [] {
      assert a + b == b;
    } else {
      assert (a + b)[1..] == a[1..] + b;
      MatchingConcat(m, user, a[1..], b);
    }
  }

  lemma {:induction false} MatchingSnoc(m: Table, user: Name, a: seq<Token>, t: Token)
    requires t in m
    ensures Matching(m, user, a + [t]) == if m[t].user == user then Matching(m, user, a) + [t] else Matching(m, user, a)
  {
    MatchingConcat(m, user, a, [t]);
    assert [t][1..] == [];
  }

  lemma {:induction false} MatchingMembers(m: Table, user: Name, order: seq<Token>, t: Token)
    ensures t in Matching(m, user, order) <==> t in order && t in m && m[t].user == user
    ensures |Matching(m, user, order)| <= |order|
  {
    if order != [] {
      MatchingMembers(m, user, order[1..], t);
    }
  }

  lemma Collected(m: Table, user: Name, order: seq<Token>, room: nat)
    requires forall t :: t in order <==> t in m
    ensures room >= |order| ==>
              m - (set t | t in Matching(m, user, order)[..Min(room, |Matching(m, user, order)|)])
              == Apply(m, UserRevoked(user))
  {
    var all := Matching(m, user, order);
    forall t ensures t in all <==> t in m && m[t].user == user {
      MatchingMembers(m, user, order, t);
    }
    MatchingMembers(m, user, order, []);
    if room >= |order| {
      assert all[..Min(room, |all|)] == all;
    }
  }

  /** The first loop of revocation: the user's tokens, as many as there is room for. */
  method Collect(m: Table, user: Name, order: seq<Token>, room: nat) returns (keys: seq<Token>)
    requires forall t :: t in order ==> t in m
    ensures var all := Matching(m, user, order); keys == all[..Min(room, |all|)]
  {
    hide Matching;
    keys := [];
    MatchingNone(m, user);
    for i := 0 to |order|
      invariant |keys| <= room && keys == Matching(m, user, order[..i])
    {
      assert order[..i + 1] == order[..i] + [order[i]];
      MatchingSnoc(m, user, order[..i], order[i]);
      MatchingMore(m, user, order, i);
      if m[order[i]].user == user {
        if |keys| == room { return; }
        keys := keys + [order[i]];
      }
    }
    assert order[..|order|] == order;
  }

  lemma MatchingNone(m: Table, user: Name)
    ensures forall order: seq<Token> :: order == [] ==> Matching(m, user, order) == []
  {
  }

  /** What is collected from a part of the order begins what is collected from all of it. */
  lemma MatchingMore(m: Table, user: Name, order: seq<Token>, i: nat)
    requires i < |order| && order[i] in m
    ensures Matching(m, user, order[..i]) <= Matching(m, user, order)
    ensures m[order[i]].user == user ==> |Matching(m, user, order[..i])| < |Matching(m, user, order)|
  {
    hide Matching;
    assert order == order[..i] + [order[i]] + order[i + 1..];
    MatchingConcat(m, user, order[..i] + [order[i]], order[i + 1..]);
    MatchingSnoc(m, user, order[..i], order[i]);
  }

  /** auth_drop_collected_tokens_. */
  method DropAll(m: Table, keys: seq<Token>) returns (m': Table)
    ensures m' == m - set t | t in keys
  {
    m' := m;
    for i := 0 to |keys|
      invariant m' == m - set t | t in keys[..i]
    {
      assert keys[..i + 1] == keys[..i] + [keys[i]];
      m' := m' - {keys[i]};
    }
    assert keys[..|keys|] == keys;
  }
}
