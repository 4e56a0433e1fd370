/** cetcd_auth_save and cetcd_auth_load (src/auth/auth.c): the loops that write and read
    the blobs, and the single transaction around them. */
module AuthBackend {
  import opened Bytes
  import opened RoleBlob
  import opened AuthStore
  import opened Records
  import opened AuthPersist

  // ----------------------------------------------------------------------- saving

  /** auth_save_user_cb_. */
  method SaveUser(buf: seq<byte>, name: Name, u: User) returns (buf': seq<byte>)
    requires UserOk(u)
    ensures buf' == buf + EncUser((name, u))
  {
    var nlen := if |name| < 0xFFFF then |name| else 0xFFFF;
    RolesHeld(u);
    ghost var names := RolesOf(u);
    var rlen := TotalLen(u.mem, u.nRoles, names);
    if rlen > 0xFFFF { rlen := 0xFFFF; }
    var hl := if |u.hash| > 64 then 64 else |u.hash|;
    var login := U16(nlen) + name[..nlen] + [hl] + u.hash[..hl];
    var list := U16(u.nRoles) + U16(rlen);
    if rlen > 0 && u.mem != [] {
      list := list + u.mem[..rlen];
    }
    LoginBytes(name, u.hash, nlen, hl);
    ListBytes(u, rlen);
    hide EncLogin, EncRoleList, U16;
    buf' := buf + (login + list);
  }

  lemma LoginBytes(name: Name, hash: seq<byte>, nlen: nat, hl: nat)
    requires nlen == Min(|name|, 0xFFFF) && hl == Min(|hash|, 64)
    ensures U16(nlen) + name[..nlen] + [hl] + hash[..hl] == EncLogin(name, hash)
  {
    hide U16;
    assert U16(nlen) + name[..nlen] + [hl] + hash[..hl] == PutString(name) + ([hl] + hash[..hl]);
  }

  lemma ListBytes(u: User, rlen: nat)
    requires UserOk(u) && rlen == Min(|Pack(RolesOf(u))|, 0xFFFF)
    ensures rlen <= |u.mem| && EncRoleList(u)
         == U16(u.nRoles) + U16(rlen) + if rlen > 0 && u.mem != [] then u.mem[..rlen] else []
  {
    hide U16, Unpack, Pack;
    RolesHeld(u);
    var blob := Pack(RolesOf(u));
    assert u.mem[..rlen] == blob[..rlen];
    assert U16(u.nRoles) + U16(rlen) + u.mem[..rlen] == U16(u.nRoles) + (U16(rlen) + u.mem[..rlen]);
  }

  /** auth_save_role_cb_. */
  method SaveRole(buf: seq<byte>, name: Name, r: Role) returns (buf': seq<byte>)
    ensures buf' == buf + EncRoleV2((name, r))
  {
    var nlen := if |name| < 0xFFFF then |name| else 0xFFFF;
    var plen := if |r.prefix| < 0xFFFF then |r.prefix| else 0xFFFF;
    var rlen := if |r.rangeEnd| < 0xFFFF then |r.rangeEnd| else 0xFFFF;
    var head := U16(nlen) + name[..nlen];
    var flags := [Byte(r.permRead), Byte(r.permWrite)];
    var key := U16(plen) + r.prefix[..plen];
    var end := U16(rlen) + r.rangeEnd[..rlen];
    assert head + (flags + key) + end == EncRoleV2((name, r));
    buf' := buf + (head + (flags + key) + end);
  }

  lemma {:induction false} EncodeSnoc<R>(enc: R -> seq<byte>, rs: seq<R>, r: R)
    ensures EncodeAll(enc, rs + [r]) == EncodeAll(enc, rs) + enc(r)
  {
    EncodePrefix(enc, rs + [r], |rs|);
    assert (rs + [r])[..|rs|] == rs && (rs + [r])[|rs|..] == [r];
    assert [r][1..] == [];
    assert enc(r) + [] == enc(r);
  }

  method SaveUsers(users: map<Name, User>, order: seq<Name>) returns (buf: seq<byte>)
    requires UsersOk(users) && Enumerates(order, users)
    ensures buf == SavedUsers(users, order)
  {
    hide EncUser;
    buf := [];
    ghost var rs := Recs(users, order);
    for i := 0 to |order|
      invariant buf == EncodeAll(EncUser, rs[..i])
    {
      buf := SaveUser(buf, order[i], users[order[i]]);
      EncodeSnoc(EncUser, rs[..i], rs[i]);
      assert rs[..i] + [rs[i]] == rs[..i + 1];
    }
    assert rs[..|order|] == rs;
  }

  method SaveRoles(roles: map<Name, Role>, order: seq<Name>) returns (buf: seq<byte>)
    requires Enumerates(order, roles)
    ensures buf == SavedRoles(roles, order)
  {
    hide EncRoleV2;
    buf := [0xFF, 0x52, 0x01];
    ghost var rs := Recs(roles, order);
    for i := 0 to |order|
      invariant buf == V2_MAGIC + EncodeAll(EncRoleV2, rs[..i])
    {
      buf := SaveRole(buf, order[i], roles[order[i]]);
      EncodeSnoc(EncRoleV2, rs[..i], rs[i]);
      assert rs[..i] + [rs[i]] == rs[..i + 1];
    }
    assert rs[..|order|] == rs;
  }

  // ---------------------------------------------------------------------- loading

  lemma GetAt(val: seq<byte>, pos: nat, k: nat)
    requires pos <= |val|
    ensures GetU16(val[pos..]) ==
            if pos + 2 > |val| then Stop else Next(val[pos] as int + 256 * val[pos + 1] as int, val[pos + 2..])
    ensures GetBytes(val[pos..], k) ==
            if pos + k > |val| then Stop else Next(val[pos..pos + k], val[pos + k..])
  {
    if pos + 2 <= |val| {
      assert val[pos..][2..] == val[pos + 2..];
    }
    if pos + k <= |val| {
      assert val[pos..][k..] == val[pos + k..];
      assert val[pos..][..k] == val[pos..pos + k];
    }
  }

  function U16At(val: seq<byte>, pos: nat): nat
    requires pos + 2 <= |val|
  {
    val[pos] as int + 256 * val[pos + 1] as int
  }

  lemma StringAt(val: seq<byte>, pos: nat)
    requires pos <= |val|
    ensures GetString(val[pos..]) ==
            if pos + 2 > |val| || pos + 2 + U16At(val, pos) > |val| then Stop
            else Next(val[pos + 2..pos + 2 + U16At(val, pos)], val[pos + 2 + U16At(val, pos)..])
  {
    GetAt(val, pos, 0);
    if pos + 2 <= |val| {
      GetAt(val, pos + 2, U16At(val, pos));
    }
  }

  lemma LoginAt(val: seq<byte>, start: nat, nlen: nat)
    requires start + 2 <= |val| && nlen == U16At(val, start)
    ensures start + 2 + nlen + 1 > |val| ==> ParseLogin(val[start..]) == Stop
    ensures start + 2 + nlen + 1 <= |val| ==>
              var hlen, p := val[start + 2 + nlen] as nat, start + 2 + nlen + 1;
              ParseLogin(val[start..]) ==
              if hlen > 64 || p + hlen > |val| then Stop
              else Next((LoadName(val[start + 2..start + 2 + nlen]), val[p..p + hlen]), val[p + hlen..])
  {
    hide GetString, GetBytes, LoadName;
    StringAt(val, start);
    var p := start + 2 + nlen;
    if p <= |val| {
      GetAt(val, p, 1);
      if p + 1 <= |val| {
        assert val[p..p + 1] == [val[p]];
        GetAt(val, p + 1, val[p]);
      }
    }
  }

  lemma RoleListAt(val: seq<byte>, p: nat)
    requires p <= |val|
    ensures ParseRoleList(val[p..]) ==
            if p + 4 > |val| || p + 4 + U16At(val, p + 2) > |val| then Stop
            else Next((U16At(val, p), val[p + 4..p + 4 + U16At(val, p + 2)]), val[p + 4 + U16At(val, p + 2)..])
  {
    hide GetString, GetU16;
    GetAt(val, p, 0);
    if p + 2 <= |val| {
      StringAt(val, p + 2);
    }
  }

  /** The body of the user loop, from `start` on. */
  method ReadUser(val: seq<byte>, start: nat) returns (rec: Option<UserRec>, pos: nat)
    requires start + 2 <= |val|
    ensures start < pos <= |val|
    ensures ParseUser(val[start..]) == if rec.None? then Stop else Next(rec.value, val[pos..])
  {
    hide ParseLogin, ParseRoleList, LoadName;
    var nlen := U16At(val, start);
    pos := start + 2;
    LoginAt(val, start, nlen);
    if pos + nlen + 1 > |val| { return None, pos; }
    var name := LoadName(val[pos..pos + nlen]);
    pos := pos + nlen;
    var hlen := val[pos];
    pos := pos + 1;
    if pos + hlen <= |val| { RoleListAt(val, pos + hlen); }
    if hlen > 64 || pos + hlen + 2 + 2 > |val| { return None, pos; }
    var hash := val[pos..pos + hlen];
    pos := pos + hlen;
    var nRoles := U16At(val, pos);
    pos := pos + 2;
    var rlen := U16At(val, pos);
    pos := pos + 2;
    if pos + rlen > |val| { return None, pos; }
    var mem := val[pos..pos + rlen];
    pos := pos + rlen;
    return Some((name, User(hash, mem, nRoles))), pos;
  }

  lemma RoleAt(val: seq<byte>, start: nat, nlen: nat)
    requires start + 2 <= |val| && nlen == U16At(val, start)
    ensures start + 2 + nlen + 4 > |val| ==> ParseRoleV1(val[start..]) == Stop
    ensures start + 2 + nlen + 4 <= |val| ==>
              var p := start + 2 + nlen;
              var plen := U16At(val, p + 2);
              ParseRoleV1(val[start..]) ==
              if p + 4 + plen > |val| then Stop
              else Next((LoadName(val[start + 2..p]),
                         Role(Flag(val[p]), Flag(val[p + 1]), LoadKey(val[p + 4..p + 4 + plen]), [])),
                        val[p + 4 + plen..])
  {
    hide GetString, GetBytes, LoadName, LoadKey;
    StringAt(val, start);
    var p := start + 2 + nlen;
    if p > |val| { return; }
    GetAt(val, p, 2);
    if p + 2 > |val| { return; }
    assert val[p..p + 2] == [val[p], val[p + 1]];
    StringAt(val, p + 2);
  }

  /** The body of the role loop, from `start` on; `v2` is the version found. */
  method ReadRole(val: seq<byte>, start: nat, v2: bool) returns (rec: Option<RoleRec>, pos: nat)
    requires start + 2 <= |val|
    ensures start < pos <= |val|
    ensures (if v2 then ParseRoleV2(val[start..]) else ParseRoleV1(val[start..])) ==
            if rec.None? then Stop else Next(rec.value, val[pos..])
  {
    hide ParseRoleV1, GetString, LoadName, LoadKey;
    var nlen := U16At(val, start);
    pos := start + 2;
    RoleAt(val, start, nlen);
    if pos + nlen + 1 + 1 + 2 > |val| { return None, pos; }
    var name := LoadName(val[pos..pos + nlen]);
    pos := pos + nlen;
    var pr, pw := val[pos], val[pos + 1];
    pos := pos + 2;
    var plen := U16At(val, pos);
    pos := pos + 2;
    if pos + plen > |val| { return None, pos; }
    var r := Role(if pr != 0 then 1 else 0, if pw != 0 then 1 else 0, LoadKey(val[pos..pos + plen]), []);
    pos := pos + plen;
    if v2 {
      StringAt(val, pos);
      if pos + 2 > |val| { return None, pos; }
      var rlen := U16At(val, pos);
      pos := pos + 2;
      if pos + rlen > |val| { return None, pos; }
      r := r.(rangeEnd := LoadKey(val[pos..pos + rlen]));
      pos := pos + rlen;
    }
    return Some((name, r)), pos;
  }

  lemma DecodeStep<T>(parse: seq<byte> -> Parsed<T>, b: seq<byte>)
    ensures parse(b) == Stop ==> DecodeAll(parse, b) == []
    ensures parse(b).Next? && |parse(b).rest| < |b| ==>
              DecodeAll(parse, b) == [parse(b).value] + DecodeAll(parse, parse(b).rest)
  {
  }

  method LoadUsers(users: map<Name, User>, val: seq<byte>) returns (users': map<Name, User>)
    ensures users' == LoadedUsers(users, val)
  {
    hide ParseUser, PutAll, DecodeAll;
    users' := users;
    var pos := 0;
    ghost var done: seq<UserRec> := [];
    assert users == PutAll(users, []) by { PutNone(users); }
    assert val[0..] == val;
    while pos + 2 <= |val|
      invariant pos <= |val|
      invariant users' == PutAll(users, done)
      invariant DecodeAll(ParseUser, val) == done + DecodeAll(ParseUser, val[pos..])
      decreases |val| - pos
    {
      var rec, next := ReadUser(val, pos);
      DecodeStep(ParseUser, val[pos..]);
      if rec.None? {
        assert done + [] == done;
        return;
      }
      PutAllSnoc(users, done, rec.value);
      assert done + ([rec.value] + DecodeAll(ParseUser, val[next..]))
          == done + [rec.value] + DecodeAll(ParseUser, val[next..]);
      done := done + [rec.value];
      users' := users'[rec.value.0 := rec.value.1];
      pos := next;
    }
    TooShort(val[pos..]);
    DecodeStep(ParseUser, val[pos..]);
    assert done + [] == done;
  }

  lemma PutNone<K, V>(m: map<K, V>)
    ensures PutAll(m, []) == m
  {
  }

  lemma TooShort(b: seq<byte>)
    requires |b| < 2
    ensures ParseUser(b) == Stop && ParseRoleV1(b) == Stop && ParseRoleV2(b) == Stop
  {
  }

  method LoadRoles(roles: map<Name, Role>, val: seq<byte>) returns (roles': map<Name, Role>)
    ensures roles' == LoadedRoles(roles, val)
  {
    hide ParseRoleV1, ParseRoleV2, PutAll, DecodeAll;
    roles' := roles;
    var pos, v2 := 0, false;
    if |val| >= 3 && val[0] == 0xFF && val[1] == 0x52 && val[2] == 0x01 {
      v2, pos := true, 3;
    }
    assert v2 <==> |val| >= 3 && val[..3] == V2_MAGIC;
    ghost var parse := if v2 then ParseRoleV2 else ParseRoleV1;
    ghost var done: seq<RoleRec> := [];
    assert roles == PutAll(roles, []) by { PutNone(roles); }
    assert val[0..] == val;
    while pos + 2 <= |val|
      invariant pos <= |val|
      invariant roles' == PutAll(roles, done)
      invariant ParseRoles(val) == done + DecodeAll(parse, val[pos..])
      decreases |val| - pos
    {
      var rec, next := ReadRole(val, pos, v2);
      DecodeStep(parse, val[pos..]);
      if rec.None? {
        assert done + [] == done;
        return;
      }
      PutAllSnoc(roles, done, rec.value);
      assert done + ([rec.value] + DecodeAll(parse, val[next..]))
          == done + [rec.value] + DecodeAll(parse, val[next..]);
      done := done + [rec.value];
      roles' := roles'[rec.value.0 := rec.value.1];
      pos := next;
    }
    TooShort(val[pos..]);
    DecodeStep(parse, val[pos..]);
    assert done + [] == done;
  }

  // ------------------------------------------------------------- the transaction

  /** The "auth" bucket of the backend, as committed. */
  class Bucket {
    var values: map<string, seq<byte>>

    constructor ()
      ensures values == map[]
    {
      values := map[];
    }
  }

  /** Whether every growth of the two save buffers, beginning the transaction, each put, and the
      commit succeed. */
  datatype Faults = Faults(grow: bool, begin: bool, putEnabled: bool, putUsers: bool, putRoles: bool, commit: bool) {
    predicate None() {
      grow && begin && putEnabled && putUsers && putRoles && commit
    }
  }

  function EnabledByte(enabled: bool): seq<byte> {
    [if enabled then 1 else 0]
  }

  /** All three values change together or none does. */
  method Save(s: Store, be: Bucket, userOrder: seq<Name>, roleOrder: seq<Name>, f: Faults) returns (ok: bool)
    requires UsersOk(s.users) && Enumerates(userOrder, s.users) && Enumerates(roleOrder, s.roles)
    modifies be
    ensures ok == f.None()
    ensures ok ==> be.values == old(be.values)["enabled" := EnabledByte(s.enabled)]
                                              ["users" := SavedUsers(s.users, userOrder)]
                                              ["roles" := SavedRoles(s.roles, roleOrder)]
    ensures !ok ==> be.values == old(be.values)
  {
    var en := if s.enabled then 1 else 0;
    var users := SaveUsers(s.users, userOrder);
    var roles := SaveRoles(s.roles, roleOrder);
    if !f.grow { return false; }
    if !f.begin { return false; }
    var txn := be.values;
    if !f.putEnabled { return false; }
    txn := txn["enabled" := [en]];
    if !f.putUsers { return false; }
    txn := txn["users" := users];
    if !f.putRoles { return false; }
    txn := txn["roles" := roles];
    if !f.commit { return false; }
    be.values := txn;
    return true;
  }

  method Load(s: Store, be: Bucket)
    modifies s
    ensures s.enabled == if "enabled" in be.values && |be.values["enabled"]| > 0
                         then be.values["enabled"][0] != 0 else old(s.enabled)
    ensures s.users == if "users" in be.values then LoadedUsers(old(s.users), be.values["users"]) else old(s.users)
    ensures s.roles == if "roles" in be.values then LoadedRoles(old(s.roles), be.values["roles"]) else old(s.roles)
  {
    if "enabled" in be.values && |be.values["enabled"]| > 0 {
      s.enabled := be.values["enabled"][0] != 0;
    }
    if "users" in be.values {
      s.users := LoadUsers(s.users, be.values["users"]);
    }
    if "roles" in be.values {
      s.roles := LoadRoles(s.roles, be.values["roles"]);
    }
  }

  /** The accounts a fitting store is loaded into are ones the store's methods accept. */
  lemma {:induction false} LoadedAccountsOk(users: map<Name, User>, order: seq<Name>, k: Name)
    requires UsersOk(users) && Enumerates(order, users) && (forall n :: n in users ==> UserFits(n, users[n]))
    ensures var m := LoadedUsers(map[], SavedUsers(users, order)); k in m ==> NulFree(k) && UserOk(m[k])
  {
    hide LoadedUsers, SavedUsers, NormUser, UserFits, UserOk, RolesOf;
    LoadedUser(users, order, k);
    var m := LoadedUsers(map[], SavedUsers(users, order));
    if k in m {
      var n :| n in users && NormUser((n, users[n])) == (k, m[k]);
      NormIsOk(n, users[n]);
    }
  }

  lemma NormIsOk(name: Name, u: User)
    requires UserOk(u) && NulFree(name) && UserFits(name, u)
    ensures var (n, v) := NormUser((name, u)); NulFree(n) && UserOk(v)
  {
    hide Unpack, Pack, UserOk;
    BlobHolds(u);
    PackLength(RolesOf(u));
    NormFits(name, u);
    var blob := Pack(RolesOf(u));
    assert blob[..SavedLen(|blob|)] == blob;
    UserWith(NormUser((name, u)).1, RolesOf(u));
  }

  /** The count a list is saved under. */
  function SavedCount(u: User): nat {
    u.nRoles % 65536
  }

  /** A saved account comes back with all the names its count then says if and only if that many names
      pack into 65535 bytes. */
  lemma ReloadedOkIff(name: Name, u: User)
    requires UserOk(u)
    ensures SavedCount(u) <= |RolesOf(u)|
    ensures UserOk(NormUser((name, u)).1) <==> |Pack(RolesOf(u)[..SavedCount(u)])| <= 0xFFFF
  {
    hide Unpack, Pack;
    var names, v := RolesOf(u), NormUser((name, u)).1;
    var some, blob := names[..SavedCount(u)], Pack(names);
    RolesHeld(u);
    assert names == some + names[SavedCount(u)..];
    PackConcat(some, names[SavedCount(u)..]);
    if |Pack(some)| <= 0xFFFF {
      UserWith(v, some);
    } else if UserOk(v) {
      RolesHeld(v);
      assert Pack(RolesOf(v)) <= blob;
      HoldsUnique(blob, some, RolesOf(v));
    }
  }

  /** So after any save and load, the check leaves exactly the lists that did not pack. */
  lemma {:induction false} ReloadedLeavesIff(users: map<Name, User>, order: seq<Name>, k: Name)
    returns (n: Name)
    requires UsersOk(users) && Enumerates(order, users)
    requires k in LoadedUsers(map[], SavedUsers(users, order))
    ensures n in users && n[..Min(|n|, 127)] == k && SavedCount(users[n]) <= |RolesOf(users[n])|
    ensures var v := LoadedUsers(map[], SavedUsers(users, order))[k];
            Inside(v.mem, v.nRoles, Never) <==> |Pack(RolesOf(users[n])[..SavedCount(users[n])])| <= 0xFFFF
  {
    hide LoadedUsers, SavedUsers, Inside, Unpack, Pack;
    LoadedUser(users, order, k);
    var m := LoadedUsers(map[], SavedUsers(users, order));
    n :| n in users && NormUser((n, users[n])) == (k, m[k]);
    ReloadedOkIff(n, users[n]);
    WalkInsideIff(m[k].mem, m[k].nRoles);
  }

  /** One role with a name of 65535 bytes: the account is sound, and saved and loaded again its list
      has no end. */
  lemma {:induction false} LongRoleLeaves(name: Name, hash: seq<byte>, role: Name)
    requires NulFree(name) && |name| <= 127 && NulFree(role) && |role| == 0xFFFF
    ensures var u := User(hash, role + [0], 1);
            var m := LoadedUsers(map[], SavedUsers(map[name := u], [name]));
            && UserOk(u) && RolesOf(u) == [role]
            && name in m && RolesOf(m[name]) == [] && !Inside(m[name].mem, m[name].nRoles, Never)
  {
    hide LoadedUsers, SavedUsers, Inside, Unpack, Pack, Accounts;
    var u, order := User(hash, role + [0], 1), [name];
    var users := map[name := u];
    LongRole(name, u, role);
    LoadedUsersAre(users, order);
    LoadedEntry(NormUser, Recs(users, order), name);
    LoadedUser(users, order, name);
    var m := LoadedUsers(map[], SavedUsers(users, order));
    assert Recs(users, order)[0] == (name, u);
    assert name in m && NormUser((name, u)) == (name, m[name]);
    WalkInsideIff(role, 1);
  }

  lemma LongRole(name: Name, u: User, role: Name)
    requires |name| <= 127 && NulFree(role) && |role| == 0xFFFF && u.mem == role + [0] && u.nRoles == 1
    ensures UserOk(u) && RolesOf(u) == [role]
    ensures NormUser((name, u)) == (name, User(u.hash[..Min(|u.hash|, 64)], role, 1)) && Unpack(role, 1) == []
  {
    hide Unpack, Pack;
    PackSingle(role);
    UserWith(u, [role]);
    assert (role + [0])[..0xFFFF] == role && name[..|name|] == name;
    assert role[0..] == role;
    NoName(role, 0, 1);
  }

  /** A store that fits, loaded into an empty one, answers every permission check as before. */
  lemma {:induction false} ChecksSurvive(
    users: map<Name, User>, roles: map<Name, Role>, enabled: bool, userOrder: seq<Name>, roleOrder: seq<Name>,
    who: Name, key: seq<byte>, wantWrite: bool)
    requires UsersOk(users) && Enumerates(userOrder, users) && (forall n :: n in users ==> UserFits(n, users[n]))
    requires RolesOk(roles) && Enumerates(roleOrder, roles) && (forall n :: n in roles ==> RoleFits(n, roles[n]))
    ensures var users' := LoadedUsers(map[], SavedUsers(users, userOrder));
            var roles' := LoadedRoles(map[], SavedRoles(roles, roleOrder));
            Allowed(Rbac(HeldBy(users'), roles', EnabledByte(enabled)[0] != 0), who, key, wantWrite)
            == Allowed(Rbac(HeldBy(users), roles, enabled), who, key, wantWrite)
  {
    hide LoadedUsers, SavedUsers, LoadedRoles, SavedRoles, Allowed;
    RolesRoundTrip(roles, roleOrder);
    var users' := LoadedUsers(map[], SavedUsers(users, userOrder));
    forall n ensures n in users' <==> n in users {
      FittingUserLoads(users, userOrder, n);
    }
    forall n | n in users' ensures RolesOf(users'[n]) == RolesOf(users[n]) {
      FittingUserLoads(users, userOrder, n);
    }
    assert HeldBy(users') == HeldBy(users);
  }
}
