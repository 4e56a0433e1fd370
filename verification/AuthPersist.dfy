/** Saving the store into three values of a backend bucket and loading it back
    (src/auth/auth.c): the user blob, and the role blob in its two versions. */
module AuthPersist {
  import opened Bytes
  import opened RoleBlob
  import opened AuthStore
  import opened Records

  type UserRec = (Name, User)
  type RoleRec = (Name, Role)

  const V2_MAGIC: seq<byte> := [0xFF, 0x52, 0x01]

  /** `char name[128]`, filled from a length-prefixed name and used as a C string. */
  function LoadName(raw: seq<byte>): Name {
    CStr(raw[..Min(|raw|, 127)])
  }

  /** `char key_prefix[256]` and `char range_end[256]`. */
  function LoadKey(raw: seq<byte>): seq<byte> {
    raw[..Min(|raw|, 255)]
  }

  // -------------------------------------------------------------------- user blob

  function EncLogin(name: Name, hash: seq<byte>): seq<byte> {
    var hlen := Min(|hash|, 64);
    PutString(name) + ([hlen] + hash[..hlen])
  }

  ghost function EncRoleList(u: User): seq<byte> {
    U16(u.nRoles) + PutString(Pack(RolesOf(u)))
  }

  ghost function EncUser(r: UserRec): seq<byte> {
    EncLogin(r.0, r.1.hash) + EncRoleList(r.1)
  }

  /** One round of the load loop, up to the password hash and from there on. */
  function ParseLogin(b: seq<byte>): Parsed<(Name, seq<byte>)> {
    match GetString(b) case Stop => Stop case Next(raw, b1) =>
    match GetBytes(b1, 1) case Stop => Stop case Next(h, b2) =>
    if h[0] > 64 then Stop else
    match GetBytes(b2, h[0]) case Stop => Stop case Next(hash, b3) =>
    Next((LoadName(raw), hash), b3)
  }

  function ParseRoleList(b: seq<byte>): Parsed<(nat, seq<byte>)> {
    match GetU16(b) case Stop => Stop case Next(nRoles, b1) =>
    match GetString(b1) case Stop => Stop case Next(mem, b2) =>
    Next((nRoles, mem), b2)
  }

  function ParseUser(b: seq<byte>): Parsed<UserRec> {
    match ParseLogin(b) case Stop => Stop case Next((name, hash), c) =>
    match ParseRoleList(c) case Stop => Stop case Next((nRoles, mem), rest) =>
    Next((name, User(hash, mem, nRoles)), rest)
  }

  ghost predicate UserRecOk(r: UserRec) {
    NulFree(r.0) && UserOk(r.1)
  }

  /** What a saved user is read back as. */
  ghost function NormUser(r: UserRec): UserRec {
    var (name, u) := r;
    var blob := Pack(RolesOf(u));
    (name[..Min(|name|, 127)],
     User(u.hash[..Min(|u.hash|, 64)], blob[..SavedLen(|blob|)], u.nRoles % 65536))
  }

  lemma {:induction false} LoadNameBack(name: Name)
    requires NulFree(name)
    ensures LoadName(name[..SavedLen(|name|)]) == name[..Min(|name|, 127)]
  {
    var raw := name[..SavedLen(|name|)];
    assert raw[..Min(|raw|, 127)] == name[..Min(|name|, 127)];
    CStrOfNulFree(name[..Min(|name|, 127)]);
  }

  lemma LoadKeyBack(key: seq<byte>)
    ensures LoadKey(key[..SavedLen(|key|)]) == key[..Min(|key|, 255)]
  {
    var raw := key[..SavedLen(|key|)];
    assert raw[..Min(|raw|, 255)] == key[..Min(|key|, 255)];
  }

  lemma {:induction false} LoginReadsBack(name: Name, hash: seq<byte>, rest: seq<byte>, n: nat, b: seq<byte>)
    requires NulFree(name) && n <= |EncLogin(name, hash) + rest|
    requires b == (EncLogin(name, hash) + rest)[..n]
    ensures n < |EncLogin(name, hash)| ==> ParseLogin(b) == Stop
    ensures n >= |EncLogin(name, hash)| ==>
              ParseLogin(b) == Next((name[..Min(|name|, 127)], hash[..Min(|hash|, 64)]),
                                    rest[..n - |EncLogin(name, hash)|])
  {
    hide GetString, GetBytes, PutString, LoadName;
    var hlen := Min(|hash|, 64);
    var s, h, hash' := PutString(name), [hlen as byte], hash[..hlen];
    var x2 := hash' + rest;
    var x1 := h + x2;
    assert EncLogin(name, hash) + rest == s + x1 by {
      assert (h + hash') + rest == x1;
    }
    GetStringCut(name, x1, n);
    if n < |s| { return; }
    var b1 := x1[..n - |s|];
    assert GetString(b) == Next(name[..SavedLen(|name|)], b1);
    GetBytesCut(h, x2, n - |s|);
    if n < |s| + 1 { return; }
    var b2 := x2[..n - |s| - 1];
    assert GetBytes(b1, 1) == Next(h, b2);
    GetBytesCut(hash', rest, n - |s| - 1);
    LoadNameBack(name);
  }

  lemma {:induction false} RoleListReadsBack(u: User, rest: seq<byte>, n: nat, b: seq<byte>)
    requires n <= |EncRoleList(u) + rest| && b == (EncRoleList(u) + rest)[..n]
    ensures n < |EncRoleList(u)| ==> ParseRoleList(b) == Stop
    ensures n >= |EncRoleList(u)| ==>
              var blob := Pack(RolesOf(u));
              ParseRoleList(b) == Next((u.nRoles % 65536, blob[..SavedLen(|blob|)]), rest[..n - |EncRoleList(u)|])
  {
    hide GetString, GetU16, PutString, U16, RolesOf, Unpack, Pack;
    var blob := Pack(RolesOf(u));
    var x1 := PutString(blob) + rest;
    assert EncRoleList(u) + rest == U16(u.nRoles) + x1;
    GetU16Cut(u.nRoles, x1, n);
    if n < 2 { return; }
    GetStringCut(blob, rest, n - 2);
  }

  lemma {:induction false} UserReadsBack(r: UserRec, rest: seq<byte>, n: nat, b: seq<byte>)
    requires UserRecOk(r) && n <= |EncUser(r) + rest| && b == (EncUser(r) + rest)[..n]
    ensures n < |EncUser(r)| ==> ParseUser(b) == Stop
    ensures n >= |EncUser(r)| ==> ParseUser(b) == Next(NormUser(r), rest[..n - |EncUser(r)|])
  {
    hide ParseLogin, ParseRoleList, EncLogin, EncRoleList, GetU16, GetBytes, RolesOf, Unpack, Pack;
    var (name, u) := r;
    var login, list := EncLogin(name, u.hash), EncRoleList(u);
    var x := list + rest;
    assert EncUser(r) + rest == login + x;
    LoginReadsBack(name, u.hash, x, n, b);
    if n >= |login| {
      RoleListReadsBack(u, rest, n - |login|, x[..n - |login|]);
    }
  }

  lemma EncUserNonempty(r: UserRec)
    ensures EncUser(r) != []
  {
    hide EncRoleList;
  }

  lemma NoUser()
    ensures ParseUser([]) == Stop
  {
  }

  lemma {:induction false} UsersReadBack()
    ensures ReadsBack(UserRecOk, EncUser, NormUser, ParseUser)
  {
    hide ParseUser, EncUser, NormUser, UserRecOk;
    NoUser();
    forall r: UserRec | UserRecOk(r)
      ensures EncUser(r) != []
    {
      EncUserNonempty(r);
    }
    forall r: UserRec, rest, n | UserRecOk(r) && |EncUser(r)| <= n <= |EncUser(r) + rest|
      ensures ParseUser((EncUser(r) + rest)[..n]) == Next(NormUser(r), rest[..n - |EncUser(r)|])
    {
      UserReadsBack(r, rest, n, (EncUser(r) + rest)[..n]);
    }
    forall r: UserRec, rest, n | UserRecOk(r) && 0 <= n < |EncUser(r)|
      ensures ParseUser((EncUser(r) + rest)[..n]) == Stop
    {
      UserReadsBack(r, rest, n, (EncUser(r) + rest)[..n]);
    }
  }

  // -------------------------------------------------------------------- role blob

  function Byte(v: int): byte {
    v % 256
  }

  function Flag(b: byte): int {
    if b != 0 then 1 else 0
  }

  function EncRoleV1(r: RoleRec): seq<byte> {
    PutString(r.0) + ([Byte(r.1.permRead), Byte(r.1.permWrite)] + PutString(r.1.prefix))
  }

  function EncRoleV2(r: RoleRec): seq<byte> {
    EncRoleV1(r) + PutString(r.1.rangeEnd)
  }

  /** The part of a role record that both versions share: the role without its end. */
  function ParseRoleV1(b: seq<byte>): Parsed<RoleRec> {
    match GetString(b) case Stop => Stop case Next(raw, b1) =>
    match GetBytes(b1, 2) case Stop => Stop case Next(perm, b2) =>
    match GetString(b2) case Stop => Stop case Next(key, b3) =>
    Next((LoadName(raw), Role(Flag(perm[0]), Flag(perm[1]), LoadKey(key), [])), b3)
  }

  function ParseRoleV2(b: seq<byte>): Parsed<RoleRec> {
    match ParseRoleV1(b) case Stop => Stop case Next((name, x), c) =>
    match GetString(c) case Stop => Stop case Next(end, c1) =>
    Next((name, x.(rangeEnd := LoadKey(end))), c1)
  }

  /** The whole blob: version 2 when it starts with the magic bytes. */
  function ParseRoles(b: seq<byte>): seq<RoleRec> {
    if |b| >= 3 && b[..3] == V2_MAGIC then DecodeAll(ParseRoleV2, b[3..]) else DecodeAll(ParseRoleV1, b)
  }

  predicate RoleRecOk(r: RoleRec) {
    NulFree(r.0)
  }

  function NormRoleV1(r: RoleRec): RoleRec {
    var (name, x) := r;
    (name[..Min(|name|, 127)],
     Role(Flag(Byte(x.permRead)), Flag(Byte(x.permWrite)), x.prefix[..Min(|x.prefix|, 255)], []))
  }

  function NormRoleV2(r: RoleRec): RoleRec {
    var (name, x) := NormRoleV1(r);
    (name, x.(rangeEnd := r.1.rangeEnd[..Min(|r.1.rangeEnd|, 255)]))
  }

  lemma {:induction false} RoleReadsBackV1(r: RoleRec, rest: seq<byte>, n: nat, b: seq<byte>)
    requires RoleRecOk(r) && n <= |EncRoleV1(r) + rest| && b == (EncRoleV1(r) + rest)[..n]
    ensures n < |EncRoleV1(r)| ==> ParseRoleV1(b) == Stop
    ensures n >= |EncRoleV1(r)| ==> ParseRoleV1(b) == Next(NormRoleV1(r), rest[..n - |EncRoleV1(r)|])
  {
    hide GetString, GetBytes, PutString, LoadName, LoadKey;
    var (name, x) := r;
    var s, perm := PutString(name), [Byte(x.permRead), Byte(x.permWrite)];
    var x2 := PutString(x.prefix) + rest;
    var x1 := perm + x2;
    assert EncRoleV1(r) + rest == s + x1 by {
      assert (perm + PutString(x.prefix)) + rest == x1;
    }
    GetStringCut(name, x1, n);
    if n < |s| { return; }
    var b1 := x1[..n - |s|];
    assert GetString(b) == Next(name[..SavedLen(|name|)], b1);
    GetBytesCut(perm, x2, n - |s|);
    if n < |s| + 2 { return; }
    var b2 := x2[..n - |s| - 2];
    assert GetBytes(b1, 2) == Next(perm, b2);
    GetStringCut(x.prefix, rest, n - |s| - 2);
    LoadNameBack(name);
    LoadKeyBack(x.prefix);
  }

  lemma {:induction false} RoleReadsBackV2(r: RoleRec, rest: seq<byte>, n: nat, b: seq<byte>)
    requires RoleRecOk(r) && n <= |EncRoleV2(r) + rest| && b == (EncRoleV2(r) + rest)[..n]
    ensures n < |EncRoleV2(r)| ==> ParseRoleV2(b) == Stop
    ensures n >= |EncRoleV2(r)| ==> ParseRoleV2(b) == Next(NormRoleV2(r), rest[..n - |EncRoleV2(r)|])
  {
    hide ParseRoleV1, EncRoleV1, NormRoleV1, GetString, PutString, LoadKey;
    var len := |EncRoleV1(r)|;
    var x1 := PutString(r.1.rangeEnd) + rest;
    assert EncRoleV2(r) + rest == EncRoleV1(r) + x1;
    RoleReadsBackV1(r, x1, n, b);
    if n < len { return; }
    var b1 := x1[..n - len];
    assert ParseRoleV1(b) == Next(NormRoleV1(r), b1);
    GetStringCut(r.1.rangeEnd, rest, n - len);
    LoadKeyBack(r.1.rangeEnd);
  }

  lemma NoRole()
    ensures ParseRoleV1([]) == Stop && ParseRoleV2([]) == Stop
  {
  }

  lemma EncRoleNonempty(r: RoleRec)
    ensures EncRoleV1(r) != [] && EncRoleV2(r) != []
  {
  }

  lemma {:induction false} RolesReadBackV1()
    ensures ReadsBack(RoleRecOk, EncRoleV1, NormRoleV1, ParseRoleV1)
  {
    hide ParseRoleV1, EncRoleV1, NormRoleV1, RoleRecOk;
    NoRole();
    forall r: RoleRec | RoleRecOk(r) ensures EncRoleV1(r) != [] {
      EncRoleNonempty(r);
    }
    forall r: RoleRec, rest, n | RoleRecOk(r) && |EncRoleV1(r)| <= n <= |EncRoleV1(r) + rest|
      ensures ParseRoleV1((EncRoleV1(r) + rest)[..n]) == Next(NormRoleV1(r), rest[..n - |EncRoleV1(r)|])
    {
      RoleReadsBackV1(r, rest, n, (EncRoleV1(r) + rest)[..n]);
    }
    forall r: RoleRec, rest, n | RoleRecOk(r) && 0 <= n < |EncRoleV1(r)|
      ensures ParseRoleV1((EncRoleV1(r) + rest)[..n]) == Stop
    {
      RoleReadsBackV1(r, rest, n, (EncRoleV1(r) + rest)[..n]);
    }
  }

  lemma {:induction false} RolesReadBackV2()
    ensures ReadsBack(RoleRecOk, EncRoleV2, NormRoleV2, ParseRoleV2)
  {
    hide ParseRoleV2, EncRoleV2, NormRoleV2, RoleRecOk;
    NoRole();
    forall r: RoleRec | RoleRecOk(r) ensures EncRoleV2(r) != [] {
      EncRoleNonempty(r);
    }
    forall r: RoleRec, rest, n | RoleRecOk(r) && |EncRoleV2(r)| <= n <= |EncRoleV2(r) + rest|
      ensures ParseRoleV2((EncRoleV2(r) + rest)[..n]) == Next(NormRoleV2(r), rest[..n - |EncRoleV2(r)|])
    {
      RoleReadsBackV2(r, rest, n, (EncRoleV2(r) + rest)[..n]);
    }
    forall r: RoleRec, rest, n | RoleRecOk(r) && 0 <= n < |EncRoleV2(r)|
      ensures ParseRoleV2((EncRoleV2(r) + rest)[..n]) == Stop
    {
      RoleReadsBackV2(r, rest, n, (EncRoleV2(r) + rest)[..n]);
    }
  }

  // ------------------------------------------------------------- the whole store

  /** A hash map may be walked in any order that visits each key once. */
  ghost predicate Enumerates<V>(order: seq<Name>, m: map<Name, V>) {
    && Distinct(order)
    && (forall i :: 0 <= i < |order| ==> order[i] in m)
    && (forall n :: n in m ==> n in order)
  }

  ghost function Recs<V>(m: map<Name, V>, order: seq<Name>): (rs: seq<(Name, V)>)
    requires Enumerates(order, m)
    ensures |rs| == |order| && forall i :: 0 <= i < |rs| ==> rs[i] == (order[i], m[order[i]])
  {
    seq(|order|, i requires 0 <= i < |order| => (order[i], m[order[i]]))
  }

  ghost function SavedUsers(users: map<Name, User>, order: seq<Name>): seq<byte>
    requires Enumerates(order, users)
  {
    EncodeAll(EncUser, Recs(users, order))
  }

  ghost function SavedRoles(roles: map<Name, Role>, order: seq<Name>): seq<byte>
    requires Enumerates(order, roles)
  {
    V2_MAGIC + EncodeAll(EncRoleV2, Recs(roles, order))
  }

  function LoadedUsers(users: map<Name, User>, b: seq<byte>): map<Name, User> {
    PutAll(users, DecodeAll(ParseUser, b))
  }

  function LoadedRoles(roles: map<Name, Role>, b: seq<byte>): map<Name, Role> {
    PutAll(roles, ParseRoles(b))
  }

  /** What counts about a user: the password hash and the roles in order. */
  ghost function Accounts(users: map<Name, User>): map<Name, (seq<byte>, seq<Name>)> {
    map n | n in users :: (users[n].hash, RolesOf(users[n]))
  }

  ghost predicate UsersOk(users: map<Name, User>) {
    forall n :: n in users ==> NulFree(n) && UserOk(users[n])
  }

  ghost predicate UserFits(name: Name, u: User) {
    |name| <= 127 && |u.hash| <= 64 && |Pack(RolesOf(u))| <= 0xFFFF
  }

  predicate RoleFits(name: Name, r: Role) {
    && |name| <= 127
    && r.permRead in {0, 1} && r.permWrite in {0, 1}
    && |r.prefix| <= 255 && |r.rangeEnd| <= 255
  }

  lemma {:induction false} NormFits(name: Name, u: User)
    requires UserOk(u) && UserFits(name, u)
    ensures NormUser((name, u)).0 == name
    ensures NormUser((name, u)).1.hash == u.hash
    ensures RolesOf(NormUser((name, u)).1) == RolesOf(u)
  {
    hide Unpack, Pack, Terminated, StrLen, Holds, UserOk;
    var names := RolesOf(u);
    var blob := Pack(names);
    PackLength(names);
    BlobHolds(u);
    assert blob[..SavedLen(|blob|)] == blob;
    UnpackPack(blob, names);
  }

  lemma BlobHolds(u: User)
    requires UserOk(u)
    ensures Holds(Pack(RolesOf(u)), RolesOf(u)) && |RolesOf(u)| == u.nRoles
  {
    hide Pack, Terminated, StrLen, Unpack;
    RolesHeld(u);
  }

  lemma {:induction false} UnpackFits(mem: seq<byte>, n: nat)
    ensures |Pack(Unpack(mem, n))| <= |mem|
    decreases n
  {
    hide Unpack, Pack, Terminated, StrLen;
    if n > 0 && Terminated(mem, 0) {
      UnpackStep(mem, n);
      var l := StrLen(mem, 0);
      var rest := Unpack(mem[l + 1..], n - 1);
      UnpackFits(mem[l + 1..], n - 1);
      PackConcat([mem[..l]], rest);
      PackSingle(mem[..l]);
    } else {
      UnpackNothing(mem, n);
    }
  }

  lemma UnpackNothing(mem: seq<byte>, n: nat)
    requires n == 0 || !Terminated(mem, 0)
    ensures |Pack(Unpack(mem, n))| == 0
  {
  }

  /** A loaded entry is the normal form of some saved one. */
  lemma {:induction false} LoadedEntry<V>(norm: ((Name, V)) -> (Name, V), rs: seq<(Name, V)>, k: Name)
    ensures var m := PutAll(map[], MapAll(norm, rs));
            && (k in m ==> exists i :: 0 <= i < |rs| && norm(rs[i]) == (k, m[k]))
            && (forall i :: 0 <= i < |rs| && norm(rs[i]).0 == k ==> k in m)
  {
    var ts := MapAll(norm, rs);
    PutAllEntries(map[], ts, k);
    var m := PutAll(map[], ts);
    if k in m {
      var i :| 0 <= i < |ts| && ts[i] == (k, m[k]);
      assert norm(rs[i]) == (k, m[k]);
    }
    forall i | 0 <= i < |rs| && norm(rs[i]).0 == k ensures k in m {
      assert ts[i].0 == k;
    }
  }

  lemma {:induction false} LoadedUsersAre(users: map<Name, User>, order: seq<Name>)
    requires UsersOk(users) && Enumerates(order, users)
    ensures LoadedUsers(map[], SavedUsers(users, order)) == PutAll(map[], MapAll(NormUser, Recs(users, order)))
  {
    hide EncUser, NormUser, ParseUser;
    UsersReadBack();
    DecodeWhole(UserRecOk, EncUser, NormUser, ParseUser, Recs(users, order));
  }

  lemma {:induction false} LoadedUser(users: map<Name, User>, order: seq<Name>, k: Name)
    requires UsersOk(users) && Enumerates(order, users)
    ensures var m := LoadedUsers(map[], SavedUsers(users, order));
            && (k in m ==> exists n :: n in users && NormUser((n, users[n])) == (k, m[k]))
            && (k in users && UserFits(k, users[k]) ==> k in m)
  {
    hide LoadedUsers, SavedUsers, UserFits, NormUser, UserOk, RolesOf, MapAll, PutAll;
    LoadedUsersAre(users, order);
    var rs := Recs(users, order);
    var m := PutAll(map[], MapAll(NormUser, rs));
    LoadedEntry(NormUser, rs, k);
    if k in m {
      var i :| 0 <= i < |rs| && NormUser(rs[i]) == (k, m[k]);
      assert order[i] in users;
    }
    if k in users && UserFits(k, users[k]) {
      var i :| 0 <= i < |order| && order[i] == k;
      NormFits(k, users[k]);
    }
  }

  lemma {:induction false} FittingUserLoads(users: map<Name, User>, order: seq<Name>, k: Name)
    requires UsersOk(users) && Enumerates(order, users)
    requires forall n :: n in users ==> UserFits(n, users[n])
    ensures var m := LoadedUsers(map[], SavedUsers(users, order));
            && (k in m <==> k in users)
            && (k in m ==> m[k].hash == users[k].hash && RolesOf(m[k]) == RolesOf(users[k]))
  {
    hide RolesOf, NormUser, LoadedUsers, SavedUsers;
    LoadedUser(users, order, k);
    var m := LoadedUsers(map[], SavedUsers(users, order));
    if k in m {
      var n :| n in users && NormUser((n, users[n])) == (k, m[k]);
      NormFits(n, users[n]);
    }
  }

  lemma {:induction false} MisfitLost(users: map<Name, User>, order: seq<Name>, k: Name)
    requires UsersOk(users) && Enumerates(order, users)
    requires k in users && !UserFits(k, users[k])
    ensures var m := LoadedUsers(map[], SavedUsers(users, order));
            k in m ==> m[k].hash != users[k].hash || RolesOf(m[k]) != RolesOf(users[k])
  {
    hide LoadedUsers, SavedUsers, UsersOk, Enumerates, Pack, Unpack;
    LoadedUser(users, order, k);
    var m := LoadedUsers(map[], SavedUsers(users, order));
    if k in m {
      var n :| n in users && NormUser((n, users[n])) == (k, m[k]);
      UnpackFits(m[k].mem, m[k].nRoles);
    }
  }

  /** Saving and loading gives the same accounts back, whatever the order of the walk,
      exactly when every name fits 127 bytes and every packed role list 65535. */
  lemma {:induction false} UsersRoundTrip(users: map<Name, User>, order: seq<Name>)
    requires UsersOk(users) && Enumerates(order, users)
    ensures Accounts(LoadedUsers(map[], SavedUsers(users, order))) == Accounts(users)
            <==> forall n :: n in users ==> UserFits(n, users[n])
  {
    hide LoadedUsers, SavedUsers, RolesOf, UserFits, UsersOk, Enumerates;
    var m := LoadedUsers(map[], SavedUsers(users, order));
    if forall n :: n in users ==> UserFits(n, users[n]) {
      forall k ensures k in m <==> k in users {
        FittingUserLoads(users, order, k);
      }
      forall k | k in m ensures m[k].hash == users[k].hash && RolesOf(m[k]) == RolesOf(users[k]) {
        FittingUserLoads(users, order, k);
      }
    } else {
      var k :| k in users && !UserFits(k, users[k]);
      MisfitLost(users, order, k);
      assert k in Accounts(users);
      if k in m {
        assert Accounts(m)[k] != Accounts(users)[k];
      }
    }
  }

  // ------------------------------------------------------------------------- roles

  ghost predicate RolesOk(roles: map<Name, Role>) {
    forall n :: n in roles ==> NulFree(n)
  }

  lemma {:induction false} LoadedRolesAre(roles: map<Name, Role>, order: seq<Name>)
    requires RolesOk(roles) && Enumerates(order, roles)
    ensures LoadedRoles(map[], SavedRoles(roles, order)) == PutAll(map[], MapAll(NormRoleV2, Recs(roles, order)))
  {
    hide EncRoleV2, NormRoleV2, ParseRoleV2;
    RolesReadBackV2();
    var recs := Recs(roles, order);
    DecodeWhole(RoleRecOk, EncRoleV2, NormRoleV2, ParseRoleV2, recs);
    var b := SavedRoles(roles, order);
    assert b[..3] == V2_MAGIC && b[3..] == EncodeAll(EncRoleV2, recs);
  }

  lemma NormRoleFits(r: RoleRec)
    ensures RoleFits(NormRoleV2(r).0, NormRoleV2(r).1)
    ensures RoleFits(r.0, r.1) ==> NormRoleV2(r) == r
  {
    var (name, x) := r;
    if RoleFits(name, x) {
      assert name[..|name|] == name && x.prefix[..|x.prefix|] == x.prefix && x.rangeEnd[..|x.rangeEnd|] == x.rangeEnd;
    }
  }

  lemma {:induction false} LoadedRole(roles: map<Name, Role>, order: seq<Name>, k: Name)
    requires RolesOk(roles) && Enumerates(order, roles)
    ensures var m := LoadedRoles(map[], SavedRoles(roles, order));
            && (k in m ==> RoleFits(k, m[k]) && exists n :: n in roles && NormRoleV2((n, roles[n])) == (k, m[k]))
            && (k in roles && RoleFits(k, roles[k]) ==> k in m)
  {
    hide NormRoleV2, PutAll;
    LoadedRolesAre(roles, order);
    var rs := Recs(roles, order);
    var m := PutAll(map[], MapAll(NormRoleV2, rs));
    LoadedEntry(NormRoleV2, rs, k);
    if k in m {
      var i :| 0 <= i < |rs| && NormRoleV2(rs[i]) == (k, m[k]);
      NormRoleFits(rs[i]);
      assert order[i] in roles;
    }
    if k in roles && RoleFits(k, roles[k]) {
      var i :| 0 <= i < |order| && order[i] == k;
      NormRoleFits(rs[i]);
      assert NormRoleV2(rs[i]).0 == k;
    }
  }

  /** The same for roles: every name at most 127 bytes, the flags 0 or 1, keys at most 255. */
  lemma {:induction false} RolesRoundTrip(roles: map<Name, Role>, order: seq<Name>)
    requires RolesOk(roles) && Enumerates(order, roles)
    ensures LoadedRoles(map[], SavedRoles(roles, order)) == roles
            <==> forall n :: n in roles ==> RoleFits(n, roles[n])
  {
    hide NormRoleV2, LoadedRoles, SavedRoles;
    var m := LoadedRoles(map[], SavedRoles(roles, order));
    if forall n :: n in roles ==> RoleFits(n, roles[n]) {
      forall k ensures (k in m <==> k in roles) && (k in m ==> m[k] == roles[k]) {
        LoadedRole(roles, order, k);
        if k in m {
          var n :| n in roles && NormRoleV2((n, roles[n])) == (k, m[k]);
          NormRoleFits((n, roles[n]));
        }
      }
      assert m == roles;
    } else {
      var k :| k in roles && !RoleFits(k, roles[k]);
      LoadedRole(roles, order, k);
    }
  }

  // ------------------------------------------------ truncation and old versions

  /** A truncated user blob loads exactly the users wholly contained in it. */
  lemma {:induction false} UsersTruncated(users: map<Name, User>, order: seq<Name>, n: nat)
    requires UsersOk(users) && Enumerates(order, users) && n <= |SavedUsers(users, order)|
    ensures var recs := Recs(users, order);
            DecodeAll(ParseUser, SavedUsers(users, order)[..n]) == MapAll(NormUser, recs[..Whole(EncUser, recs, n)])
  {
    hide EncUser, NormUser, ParseUser;
    UsersReadBack();
    DecodeCut(UserRecOk, EncUser, NormUser, ParseUser, Recs(users, order), n);
  }

  lemma {:induction false} ShortIsEmpty(b: seq<byte>)
    requires |b| < 3 && b <= V2_MAGIC
    ensures ParseRoles(b) == []
  {
    if |b| == 2 {
      assert b[0] == V2_MAGIC[0] && b[1] == V2_MAGIC[1];
      assert ReadU16(b) == 0x52FF;
    }
    assert GetString(b) == Stop;
  }

  /** A truncated role blob loads exactly the roles wholly contained in it. */
  lemma {:induction false} RolesTruncated(roles: map<Name, Role>, order: seq<Name>, n: nat)
    requires RolesOk(roles) && Enumerates(order, roles) && n <= |SavedRoles(roles, order)|
    ensures var recs := Recs(roles, order);
            ParseRoles(SavedRoles(roles, order)[..n]) ==
            if n < 3 then [] else MapAll(NormRoleV2, recs[..Whole(EncRoleV2, recs, n - 3)])
  {
    hide *;
    RolesReadBackV2();
    var recs, b := Recs(roles, order), SavedRoles(roles, order)[..n];
    SavedLayout(roles, order, n);
    if n < 3 {
      ShortIsEmpty(b);
    } else {
      MarkedIsV2(b);
      RecsOk(roles, order);
      DecodeCut(RoleRecOk, EncRoleV2, NormRoleV2, ParseRoleV2, recs, n - 3);
    }
  }

  lemma RecsOk(roles: map<Name, Role>, order: seq<Name>)
    requires RolesOk(roles) && Enumerates(order, roles)
    ensures var recs := Recs(roles, order); forall i :: 0 <= i < |recs| ==> RoleRecOk(recs[i])
  {
  }

  lemma SavedLayout(roles: map<Name, Role>, order: seq<Name>, n: nat)
    requires Enumerates(order, roles) && n <= |SavedRoles(roles, order)|
    ensures var b := SavedRoles(roles, order)[..n];
            if n < 3 then b <= V2_MAGIC
            else b[..3] == V2_MAGIC
                 && n - 3 <= |EncodeAll(EncRoleV2, Recs(roles, order))|
                 && b[3..] == EncodeAll(EncRoleV2, Recs(roles, order))[..n - 3]
  {
    hide EncodeAll, Recs, EncRoleV2;
  }

  lemma MarkedIsV2(b: seq<byte>)
    requires |b| >= 3 && b[..3] == V2_MAGIC
    ensures ParseRoles(b) == DecodeAll(ParseRoleV2, b[3..])
  {
    hide DecodeAll, ParseRoleV2, ParseRoleV1;
  }

  /** The bytes of these version 1 records start like a version 2 blob. */
  predicate LooksV2(recs: seq<RoleRec>) {
    recs != [] && |recs[0].0| == 0x52FF && recs[0].0[0] == 0x01
  }

  /** A version 1 blob is read as version 1, with no range ends, if and only if its first name is
      not one of 21247 bytes that starts with a byte of 1; otherwise it is read as version 2. */
  lemma {:induction false} V1ReadAsV1(recs: seq<RoleRec>)
    requires forall i :: 0 <= i < |recs| ==> RoleRecOk(recs[i])
    ensures var b := EncodeAll(EncRoleV1, recs); V2_MAGIC <= b <==> LooksV2(recs)
    ensures !LooksV2(recs) ==> ParseRoles(EncodeAll(EncRoleV1, recs)) == MapAll(NormRoleV1, recs)
    ensures LooksV2(recs) ==> var b := EncodeAll(EncRoleV1, recs);
                              |b| >= 3 && ParseRoles(b) == DecodeAll(ParseRoleV2, b[3..])
  {
    RolesReadBackV1();
    hide EncRoleV1, NormRoleV1, ParseRoleV1, ParseRoleV2;
    DecodeWhole(RoleRecOk, EncRoleV1, NormRoleV1, ParseRoleV1, recs);
    var b := EncodeAll(EncRoleV1, recs);
    if recs != [] {
      FirstBytes(recs[0], EncodeAll(EncRoleV1, recs[1..]));
    }
    assert V2_MAGIC <= b <==> |b| >= 3 && b[..3] == V2_MAGIC;
  }

  lemma {:induction false} FirstBytes(r: RoleRec, rest: seq<byte>)
    ensures var b := EncRoleV1(r) + rest;
            |b| >= 3 && (b[..3] == V2_MAGIC <==> |r.0| == 0x52FF && r.0[0] == 0x01)
  {
    var b := EncRoleV1(r) + rest;
    var n := SavedLen(|r.0|);
    assert b[0] == U16(n)[0] && b[1] == U16(n)[1];
    assert b[..3] == [b[0], b[1], b[2]];
    if |r.0| == 0x52FF { assert b[2] == r.0[0]; }
  }

  /** Such a blob with one role, whose name goes on with the letter a, is read as no roles at all. */
  lemma V1Misread(r: RoleRec)
    requires r.0 == [0x01] + seq(0x52FE, k => 97) && |r.1.prefix| < 1000
    ensures ParseRoles(EncodeAll(EncRoleV1, [r])) == []
  {
    var b := EncRoleV1(r);
    assert [r][1..] == [] && b + [] == b && EncodeAll(EncRoleV1, [r]) == b + EncodeAll(EncRoleV1, []);
    FirstBytes(r, []);
    var n := SavedLen(|r.0|);
    var c := b[3..];
    assert c[0] == 97 && c[1] == 97;
    assert |b| < 23000;
    assert GetString(c) == Stop;
    assert ParseRoleV2(c) == Stop;
    MarkedIsV2(b);
    hide ParseRoleV2;
  }
}
