/** The user and role records as they lie in the backend, apart from the code that writes and reads
    them (src/auth/auth.c): which bytes are read as which record, and which bytes are written. */
module AuthWire {
  import opened Bytes
  import opened RoleBlob
  import opened AuthStore
  import opened Records
  import opened AuthPersist

  // -------------------------------------------------------------------------- pieces

  /** Two bytes, the low one first. */
  function Short(n: nat): (b: seq<byte>)
    requires n < 65536
    ensures |b| == 2 && b[0] as int + 256 * b[1] as int == n
  {
    [n % 256, n / 256]
  }

  /** A text after its length. */
  function Text(s: seq<byte>): seq<byte>
    requires |s| < 65536
  {
    Short(|s|) + s
  }

  lemma ShortIff(b: seq<byte>, n: nat, rest: seq<byte>)
    ensures GetU16(b) == Next(n, rest) <==> n < 65536 && b == Short(n) + rest
  {
    if |b| >= 2 {
      assert b == [b[0], b[1]] + b[2..];
      assert Short(ReadU16(b)) == [b[0], b[1]];
    }
    if n < 65536 && b == Short(n) + rest {
      assert b[0] == Short(n)[0] && b[1] == Short(n)[1] && b[2..] == rest;
    }
  }

  lemma BytesIff(b: seq<byte>, k: nat, a: seq<byte>, rest: seq<byte>)
    ensures GetBytes(b, k) == Next(a, rest) <==> |a| == k && b == a + rest
  {
    if |b| >= k {
      assert b == b[..k] + b[k..];
    }
  }

  lemma TextIff(b: seq<byte>, s: seq<byte>, rest: seq<byte>)
    ensures GetString(b) == Next(s, rest) <==> |s| < 65536 && b == Text(s) + rest
  {
    hide GetU16, GetBytes, Short;
    if |s| < 65536 {
      assert Text(s) + rest == Short(|s|) + (s + rest);
      ShortIff(b, |s|, s + rest);
      BytesIff(s + rest, |s|, s, rest);
    }
    if GetString(b) == Next(s, rest) {
      var n, c := GetU16(b).value, GetU16(b).rest;
      ShortIff(b, n, c);
      BytesIff(c, n, s, rest);
    }
  }

  /** `name` is what a buffer of 128 characters keeps of `raw` as a C string: up to the first 0, at
      most 127. */
  ghost predicate KeptOf(raw: seq<byte>, name: Name) {
    && name <= raw && |name| <= 127 && NulFree(name)
    && (|name| < 127 && |name| < |raw| ==> raw[|name|] == 0)
  }

  lemma NameIff(raw: seq<byte>, name: Name)
    ensures LoadName(raw) == name <==> KeptOf(raw, name)
  {
    var cut := raw[..Min(|raw|, 127)];
    CStrIs(cut);
    var kept := LoadName(raw);
    assert KeptOf(raw, kept);
    hide LoadName, CStr;
    if KeptOf(raw, name) {
      assert |name| >= |kept|;
      assert |name| <= |kept|;
      assert name == raw[..|name|] && kept == raw[..|kept|];
    }
  }

  lemma {:induction false} CStrIs(s: seq<byte>)
    ensures CStr(s) <= s && NulFree(CStr(s))
    ensures |CStr(s)| < |s| ==> s[|CStr(s)|] == 0
  {
    if s != [] && s[0] != 0 {
      CStrIs(s[1..]);
    }
  }

  // --------------------------------------------------------------------------- users

  /** A user record: the name, one byte for the length of the hash and the hash, the number of roles
      in two bytes, and the role names. */
  datatype UserOnDisk = UserOnDisk(name: seq<byte>, hash: seq<byte>, count: nat, names: seq<byte>)

  ghost predicate UserFitsDisk(w: UserOnDisk) {
    |w.name| < 65536 && |w.hash| <= 64 && w.count < 65536 && |w.names| < 65536
  }

  function UserBytes(w: UserOnDisk): seq<byte>
    requires UserFitsDisk(w)
  {
    Text(w.name) + [|w.hash|] + w.hash + Short(w.count) + Text(w.names)
  }

  /** Bytes are read as a user exactly when they start with a user record, and as the user it
      says. */
  lemma UserReadIff(b: seq<byte>, r: UserRec, rest: seq<byte>)
    ensures ParseUser(b) == Next(r, rest)
            <==> exists w :: UserFitsDisk(w) && b == UserBytes(w) + rest
                             && KeptOf(w.name, r.0) && r.1 == User(w.hash, w.names, w.count)
  {
    hide ParseUser, UserBytes, KeptOf;
    if ParseUser(b) == Next(r, rest) {
      var w := UserIs(b);
    }
    forall w | UserFitsDisk(w) && b == UserBytes(w) + rest && KeptOf(w.name, r.0) && r.1 == User(w.hash, w.names, w.count)
      ensures ParseUser(b) == Next(r, rest)
    {
      UserRead(w, rest);
      NameIff(w.name, r.0);
    }
  }

  lemma UserRead(w: UserOnDisk, rest: seq<byte>)
    requires UserFitsDisk(w)
    ensures ParseUser(UserBytes(w) + rest) == Next((LoadName(w.name), User(w.hash, w.names, w.count)), rest)
  {
    hide GetString, GetBytes, GetU16, Text, Short, LoadName;
    var h := [|w.hash| as byte];
    var c := Short(w.count) + (Text(w.names) + rest);
    var b := UserBytes(w) + rest;
    assert b == Text(w.name) + (h + (w.hash + c));
    TextIff(b, w.name, h + (w.hash + c));
    BytesIff(h + (w.hash + c), 1, h, w.hash + c);
    BytesIff(w.hash + c, |w.hash|, w.hash, c);
    ShortIff(c, w.count, Text(w.names) + rest);
    TextIff(Text(w.names) + rest, w.names, rest);
  }

  lemma UserIs(b: seq<byte>) returns (w: UserOnDisk)
    requires ParseUser(b).Next?
    ensures UserFitsDisk(w) && b == UserBytes(w) + ParseUser(b).rest
    ensures KeptOf(w.name, ParseUser(b).value.0) && ParseUser(b).value.1 == User(w.hash, w.names, w.count)
  {
    hide GetString, GetBytes, GetU16, Text, Short, LoadName, KeptOf;
    var name, b1 := GetString(b).value, GetString(b).rest;
    var h, b2 := GetBytes(b1, 1).value, GetBytes(b1, 1).rest;
    BytesIff(b1, 1, h, b2);
    var hash, c := GetBytes(b2, h[0]).value, GetBytes(b2, h[0]).rest;
    var count, c1 := GetU16(c).value, GetU16(c).rest;
    var names, rest := GetString(c1).value, GetString(c1).rest;
    TextIff(b, name, b1);
    BytesIff(b2, h[0], hash, c);
    ShortIff(c, count, c1);
    TextIff(c1, names, rest);
    w := UserOnDisk(name, hash, count, names);
    NameIff(name, LoadName(name));
    hide ParseUser, ParseLogin, ParseRoleList;
    assert h == [|hash|];
    UserJoined(w, b, b1, b2, c, c1, rest);
  }

  lemma UserJoined(
    w: UserOnDisk, b: seq<byte>, b1: seq<byte>, b2: seq<byte>, c: seq<byte>, c1: seq<byte>, rest: seq<byte>)
    requires UserFitsDisk(w)
    requires b == Text(w.name) + b1 && b1 == [|w.hash|] + b2 && b2 == w.hash + c
    requires c == Short(w.count) + c1 && c1 == Text(w.names) + rest
    ensures b == UserBytes(w) + rest
  {
    hide Text, Short;
  }

  /** What is written for a user. */
  lemma UserSpelled(r: UserRec)
    ensures var blob := Pack(RolesOf(r.1));
            EncUser(r) == UserBytes(UserOnDisk(r.0[..Min(|r.0|, 65535)], r.1.hash[..Min(|r.1.hash|, 64)],
                                               r.1.nRoles % 65536, blob[..Min(|blob|, 65535)]))
  {
    hide Pack, RolesOf;
    var blob := Pack(RolesOf(r.1));
    var name, hash, names := r.0[..Min(|r.0|, 65535)], r.1.hash[..Min(|r.1.hash|, 64)], blob[..Min(|blob|, 65535)];
    PutIsText(r.0, name);
    PutIsText(blob, names);
    ShortIs(r.1.nRoles);
    hide PutString, U16, Short, Text;
    assert EncUser(r) == (Text(name) + ([|hash|] + hash)) + (Short(r.1.nRoles % 65536) + Text(names));
  }

  lemma PutIsText(s: seq<byte>, cut: seq<byte>)
    requires cut == s[..Min(|s|, 65535)]
    ensures PutString(s) == Text(cut)
  {
  }

  lemma ShortIs(n: nat)
    ensures U16(n) == Short(n % 65536)
  {
    TwoBytes(n);
    var low, high, short := n % 256, n / 256 % 256, Short(n % 65536);
    assert low + 256 * high == short[0] as int + 256 * short[1] as int;
  }

  // --------------------------------------------------------------------------- roles

  /** A role record: the name, one byte each for reading and writing, the first key, and in version
      2 the end of the range. */
  datatype RoleOnDisk = RoleOnDisk(name: seq<byte>, canRead: byte, canWrite: byte, prefix: seq<byte>)

  ghost predicate RoleFitsDisk(w: RoleOnDisk) {
    |w.name| < 65536 && |w.prefix| < 65536
  }

  function RoleBytes(w: RoleOnDisk): seq<byte>
    requires RoleFitsDisk(w)
  {
    Text(w.name) + [w.canRead, w.canWrite] + Text(w.prefix)
  }

  /** The role a record says, `end` included: a permission is any byte but 0, a key is kept up to
      255 bytes. */
  ghost predicate SaysRole(w: RoleOnDisk, end: seq<byte>, r: RoleRec) {
    && KeptOf(w.name, r.0)
    && r.1.permRead == (if w.canRead == 0 then 0 else 1) && r.1.permWrite == (if w.canWrite == 0 then 0 else 1)
    && r.1.prefix == w.prefix[..Min(|w.prefix|, 255)] && r.1.rangeEnd == end[..Min(|end|, 255)]
  }

  /** Bytes are read as a role exactly when they start with a role record, and as the role it
      says. */
  lemma RoleReadIff(b: seq<byte>, r: RoleRec, rest: seq<byte>)
    ensures ParseRoleV1(b) == Next(r, rest)
            <==> exists w :: RoleFitsDisk(w) && b == RoleBytes(w) + rest && SaysRole(w, [], r)
    ensures ParseRoleV2(b) == Next(r, rest)
            <==> exists w, end :: RoleFitsDisk(w) && |end| < 65536 && b == RoleBytes(w) + Text(end) + rest && SaysRole(w, end, r)
  {
    hide ParseRoleV1, RoleBytes, SaysRole, Text, GetString;
    if ParseRoleV1(b) == Next(r, rest) {
      var w := RoleIs(b);
    }
    forall w | RoleFitsDisk(w) && b == RoleBytes(w) + rest && SaysRole(w, [], r)
      ensures ParseRoleV1(b) == Next(r, rest)
    {
      RoleRead(w, rest, r);
    }
    if ParseRoleV2(b) == Next(r, rest) {
      var w := RoleIs(b);
      var c := ParseRoleV1(b).rest;
      var end := GetString(c).value;
      TextIff(c, end, rest);
      EndSaid(w, end, ParseRoleV1(b).value, r);
      assert b == RoleBytes(w) + Text(end) + rest;
    }
    forall w, end | RoleFitsDisk(w) && |end| < 65536 && b == RoleBytes(w) + Text(end) + rest && SaysRole(w, end, r)
      ensures ParseRoleV2(b) == Next(r, rest)
    {
      assert b == RoleBytes(w) + (Text(end) + rest);
      var v1 := (r.0, r.1.(rangeEnd := []));
      EndUnsaid(w, end, v1, r);
      RoleRead(w, Text(end) + rest, v1);
      TextIff(Text(end) + rest, end, rest);
    }
  }

  lemma EndSaid(w: RoleOnDisk, end: seq<byte>, v1: RoleRec, r: RoleRec)
    requires SaysRole(w, [], v1) && r == (v1.0, v1.1.(rangeEnd := LoadKey(end)))
    ensures SaysRole(w, end, r)
  {
  }

  lemma EndUnsaid(w: RoleOnDisk, end: seq<byte>, v1: RoleRec, r: RoleRec)
    requires SaysRole(w, end, r) && v1 == (r.0, r.1.(rangeEnd := []))
    ensures SaysRole(w, [], v1) && r == (v1.0, v1.1.(rangeEnd := LoadKey(end)))
  {
  }

  lemma RoleRead(w: RoleOnDisk, rest: seq<byte>, r: RoleRec)
    requires RoleFitsDisk(w) && SaysRole(w, [], r)
    ensures ParseRoleV1(RoleBytes(w) + rest) == Next(r, rest)
  {
    hide GetString, GetBytes, Text, LoadName, KeptOf;
    var perm: seq<byte> := [w.canRead, w.canWrite];
    var c := Text(w.prefix) + rest;
    var b := RoleBytes(w) + rest;
    assert b == Text(w.name) + (perm + c);
    TextIff(b, w.name, perm + c);
    BytesIff(perm + c, 2, perm, c);
    TextIff(c, w.prefix, rest);
    NameIff(w.name, r.0);
  }

  lemma RoleIs(b: seq<byte>) returns (w: RoleOnDisk)
    requires ParseRoleV1(b).Next?
    ensures RoleFitsDisk(w) && b == RoleBytes(w) + ParseRoleV1(b).rest && SaysRole(w, [], ParseRoleV1(b).value)
  {
    hide GetString, GetBytes, Text, LoadName, KeptOf;
    var name, b1 := GetString(b).value, GetString(b).rest;
    var perm, b2 := GetBytes(b1, 2).value, GetBytes(b1, 2).rest;
    var prefix, rest := GetString(b2).value, GetString(b2).rest;
    TextIff(b, name, b1);
    BytesIff(b1, 2, perm, b2);
    TextIff(b2, prefix, rest);
    w := RoleOnDisk(name, perm[0], perm[1], prefix);
    assert perm == [perm[0], perm[1]];
    NameIff(name, LoadName(name));
    assert b == RoleBytes(w) + rest;
  }

  /** What is written for a role. */
  lemma RoleSpelled(r: RoleRec)
    ensures var name, prefix, end := r.0[..Min(|r.0|, 65535)], r.1.prefix[..Min(|r.1.prefix|, 65535)], r.1.rangeEnd[..Min(|r.1.rangeEnd|, 65535)];
            EncRoleV2(r) == RoleBytes(RoleOnDisk(name, r.1.permRead % 256, r.1.permWrite % 256, prefix)) + Text(end)
  {
    var name, prefix, end := r.0[..Min(|r.0|, 65535)], r.1.prefix[..Min(|r.1.prefix|, 65535)], r.1.rangeEnd[..Min(|r.1.rangeEnd|, 65535)];
    PutIsText(r.0, name);
    PutIsText(r.1.prefix, prefix);
    PutIsText(r.1.rangeEnd, end);
    hide PutString, Text;
  }

  /** A role blob is of version 2 exactly when it starts with the bytes FF 52 01. */
  lemma VersionIs(b: seq<byte>)
    ensures ParseRoles(b) == if [0xFF, 0x52, 0x01] <= b then DecodeAll(ParseRoleV2, b[3..]) else DecodeAll(ParseRoleV1, b)
  {
    hide DecodeAll, ParseRoleV1, ParseRoleV2;
  }

  /** What is written is of version 2. */
  lemma VersionWritten(roles: map<Name, Role>, order: seq<Name>)
    requires Enumerates(order, roles)
    ensures [0xFF, 0x52, 0x01] <= SavedRoles(roles, order)
  {
    hide EncodeAll, EncRoleV2;
  }
}
