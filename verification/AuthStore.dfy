/** The RBAC part of the authentication store (src/auth/auth.c): users with their packed
    role lists, roles with one key range each, and the permission check. */
module AuthStore {
  import opened Bytes
  import opened KeyRange
  import opened RoleBlob

  const ROOT: Name := [114, 111, 111, 116]  // "root"

  /** cetcd_user: `mem` is the allocation behind `roles`, empty when that is NULL. */
  datatype User = User(hash: seq<byte>, mem: seq<byte>, nRoles: nat)

  /** cetcd_role; the flags are C ints, any non-zero value grants. */
  datatype Role = Role(permRead: int, permWrite: int, prefix: seq<byte>, rangeEnd: seq<byte>)

  datatype Status = Ok | NotFound | Exists | NoMem | Invalid

  // ------------------------------------------------------------------ reference

  /** What the store means: who holds which roles, in grant order. */
  datatype Rbac = Rbac(held: map<Name, seq<Name>>, roles: map<Name, Role>, enabled: bool)

  predicate Enough(r: Role, wantWrite: bool) {
    if wantWrite then r.permWrite != 0 else r.permRead != 0 || r.permWrite != 0
  }

  predicate Grants(roles: map<Name, Role>, name: Name, key: seq<byte>, wantWrite: bool) {
    && name in roles
    && Enough(roles[name], wantWrite)
    && PermCovers(key, roles[name].prefix, roles[name].rangeEnd)
  }

  predicate Admin(g: Rbac, user: Name) {
    user == ROOT || (user in g.held && ROOT in g.held[user])
  }

  /** The promise of the permission check. */
  predicate Allowed(g: Rbac, user: Name, key: seq<byte>, wantWrite: bool) {
    || !g.enabled
    || Admin(g, user)
    || (user in g.held && exists i :: 0 <= i < |g.held[user]| && Grants(g.roles, g.held[user][i], key, wantWrite))
  }

  /** Granting a role to a list, and revoking it. */
  function Granted(names: seq<Name>, role: Name): seq<Name> {
    if role in names then names else names + [role]
  }

  function Revoked(names: seq<Name>, role: Name): seq<Name> {
    if names == [] then []
    else if names[0] == role then names[1..]
    else [names[0]] + Revoked(names[1..], role)
  }

  // -------------------------------------------------- reference: what it implies

  lemma {:induction false} RevokedIsWithout(names: seq<Name>, i: nat)
    requires i < |names| && names[i] !in names[..i]
    ensures Revoked(names, names[i]) == Without(names, i)
  {
    if i > 0 {
      assert names[0] == names[..i][0] != names[i];
      assert names[1..][..i - 1] == names[..i][1..];
      RevokedIsWithout(names[1..], i - 1);
      assert names[..i] == [names[0]] + names[1..][..i - 1];
    }
  }

  lemma {:induction false} RevokedAbsent(names: seq<Name>, role: Name)
    requires role !in names
    ensures Revoked(names, role) == names
  {
    if names != [] {
      RevokedAbsent(names[1..], role);
      assert names == [names[0]] + names[1..];
    }
  }

  lemma {:induction false} RevokedMembers(names: seq<Name>, role: Name, x: Name)
    ensures x in Revoked(names, role) ==> x in names
    ensures Distinct(names) ==> (x in Revoked(names, role) <==> x in names && x != role)
    ensures Distinct(names) ==> Distinct(Revoked(names, role))
  {
    if names != [] {
      RevokedMembers(names[1..], role, x);
      if names[0] != role {
        var r := Revoked(names[1..], role);
        forall y | y in r ensures y in names[1..] {
          RevokedMembers(names[1..], role, y);
        }
        if Distinct(names) {
          assert forall j :: 0 <= j < |r| ==> r[j] in r && r[j] in names[1..];
        }
      }
    }
  }

  /** More roles never take access away. */
  lemma GrantMonotone(g: Rbac, user: Name, role: Name, who: Name, key: seq<byte>, wantWrite: bool)
    requires user in g.held && Allowed(g, who, key, wantWrite)
    ensures Allowed(g.(held := g.held[user := Granted(g.held[user], role)]), who, key, wantWrite)
  {
    var names := g.held[user];
    assert forall i :: 0 <= i < |names| ==> Granted(names, role)[i] == names[i];
  }

  /** Fewer roles never give access. */
  lemma RevokeAntitone(g: Rbac, user: Name, role: Name, who: Name, key: seq<byte>, wantWrite: bool)
    requires user in g.held
    requires Allowed(g.(held := g.held[user := Revoked(g.held[user], role)]), who, key, wantWrite)
    ensures Allowed(g, who, key, wantWrite)
  {
    var names := g.held[user];
    var fewer := Revoked(names, role);
    forall x | x in fewer ensures x in names {
      RevokedMembers(names, role, x);
    }
    if who == user && exists i :: 0 <= i < |fewer| && Grants(g.roles, fewer[i], key, wantWrite) {
      var i :| 0 <= i < |fewer| && Grants(g.roles, fewer[i], key, wantWrite);
      assert fewer[i] in names;
    }
  }

  /** Deleting a role never adds access. */
  lemma RemoveRoleAntitone(g: Rbac, role: Name, who: Name, key: seq<byte>, wantWrite: bool)
    requires Allowed(g.(roles := g.roles - {role}), who, key, wantWrite)
    ensures Allowed(g, who, key, wantWrite)
  {
    if who in g.held {
      var names := g.held[who];
      assert forall i :: 0 <= i < |names| && Grants(g.roles - {role}, names[i], key, wantWrite)
                         ==> Grants(g.roles, names[i], key, wantWrite);
    }
  }

  /** Whoever may write a key may read it. */
  lemma WriteImpliesRead(g: Rbac, who: Name, key: seq<byte>)
    requires Allowed(g, who, key, true)
    ensures Allowed(g, who, key, false)
  {
    if who in g.held {
      var names := g.held[who];
      assert forall i :: 0 <= i < |names| && Grants(g.roles, names[i], key, true)
                         ==> Grants(g.roles, names[i], key, false);
    }
  }

  /** The user whose name is "root" and whoever holds the role of that name. */
  ghost predicate Administers(g: Rbac, who: Name) {
    who == Ascii("root") || (who in g.held && Ascii("root") in g.held[who])
  }

  /** Some role the user holds and that still exists has a key range with this key in it and a flag that
      `flag` asks for. */
  ghost predicate HoldsFor(g: Rbac, who: Name, key: seq<byte>, flag: Role -> bool) {
    who in g.held && exists name :: name in g.held[who] && name in g.roles && flag(g.roles[name]) && InRange(key, g.roles[name])
  }

  ghost predicate InRange(key: seq<byte>, r: Role) {
    if r.rangeEnd == [] then r.prefix <= key
    else if r.rangeEnd == [0] then AtMost(r.prefix, key)
    else AtMost(r.prefix, key) && Less(key, r.rangeEnd)
  }

  /** Who may write a key: everybody while the store is not enabled, administrators, and whoever holds a
      role with the write flag and the key in its range.  The read flag does not help. */
  lemma WriteAllowedIff(g: Rbac, who: Name, key: seq<byte>)
    ensures Allowed(g, who, key, true) <==> !g.enabled || Administers(g, who) || HoldsFor(g, who, key, (r: Role) => r.permWrite != 0)
  {
    hide PermCovers;
    RootSpelled();
    RangesAre(g, key);
    if who in g.held { Indexed(g.held[who]); }
  }

  /** Who may read it: the same with either flag. */
  lemma ReadAllowedIff(g: Rbac, who: Name, key: seq<byte>)
    ensures Allowed(g, who, key, false)
            <==> !g.enabled || Administers(g, who) || HoldsFor(g, who, key, (r: Role) => r.permRead != 0 || r.permWrite != 0)
  {
    hide PermCovers;
    RootSpelled();
    RangesAre(g, key);
    if who in g.held { Indexed(g.held[who]); }
  }

  lemma RootSpelled()
    ensures ROOT == Ascii("root")
  {
  }

  lemma RangesAre(g: Rbac, key: seq<byte>)
    ensures forall n :: n in g.roles ==> (PermCovers(key, g.roles[n].prefix, g.roles[n].rangeEnd) <==> InRange(key, g.roles[n]))
  {
    hide PermCovers;
    forall n | n in g.roles ensures PermCovers(key, g.roles[n].prefix, g.roles[n].rangeEnd) <==> InRange(key, g.roles[n]) {
      CoversIsInterval(key, g.roles[n].prefix, g.roles[n].rangeEnd);
    }
  }

  lemma Indexed(names: seq<Name>)
    ensures forall n :: n in names <==> exists i :: 0 <= i < |names| && names[i] == n
  {
  }

  // ------------------------------------------- reference: any run of grants/revokes

  datatype Op = Grant(role: Name) | Revoke(role: Name)

  function Apply(names: seq<Name>, op: Op): seq<Name> {
    match op
    case Grant(r) => Granted(names, r)
    case Revoke(r) => Revoked(names, r)
  }

  /** The list after the first `n` operations, from a user with no roles. */
  function Run(ops: seq<Op>, n: nat): seq<Name>
    requires n <= |ops|
  {
    if n == 0 then [] else Apply(Run(ops, n - 1), ops[n - 1])
  }

  /** Among the first `n` operations, number `i` is the grant that still counts for its
      role: the role is not revoked later, and was not already held. */
  ghost predicate Stands(ops: seq<Op>, n: nat, i: nat)
    requires i < n <= |ops|
  {
    && ops[i].Grant?
    && (forall k :: i < k < n ==> ops[k] != Revoke(ops[i].role))
    && (forall j :: 0 <= j < i && ops[j] == ops[i] ==> RevokedBetween(ops, ops[i].role, j, i))
  }

  ghost predicate RevokedBetween(ops: seq<Op>, role: Name, j: nat, i: nat)
    requires i <= |ops|
  {
    exists k :: j < k < i && ops[k] == Revoke(role)
  }

  /** The roles of the standing grants among operations 0..m, oldest grant first. */
  ghost function Standing(ops: seq<Op>, n: nat, m: nat): seq<Name>
    requires m <= n <= |ops|
  {
    if m == 0 then []
    else Standing(ops, n, m - 1) + if Stands(ops, n, m - 1) then [ops[m - 1].role] else []
  }

  lemma {:induction false} StandingMembers(ops: seq<Op>, n: nat, m: nat, x: Name)
    requires m <= n <= |ops|
    ensures x in Standing(ops, n, m) <==> exists i :: 0 <= i < m && Stands(ops, n, i) && ops[i].role == x
  {
    if m > 0 {
      StandingMembers(ops, n, m - 1, x);
      if Stands(ops, n, m - 1) && ops[m - 1].role == x {
        assert x in Standing(ops, n, m);
      }
    }
  }

  /** A role granted at `j` and not revoked since has a standing grant. */
  lemma {:induction false} SomeGrantStands(ops: seq<Op>, n: nat, j: nat)
    requires j < n <= |ops| && ops[j].Grant?
    requires forall k :: j < k < n ==> ops[k] != Revoke(ops[j].role)
    ensures exists i :: 0 <= i <= j && Stands(ops, n, i) && ops[i].role == ops[j].role
  {
    if !Stands(ops, n, j) {
      var i :| 0 <= i < j && ops[i] == ops[j] && !RevokedBetween(ops, ops[j].role, i, j);
      SomeGrantStands(ops, n, i);
    }
  }

  lemma {:induction false} StandingAfterGrant(ops: seq<Op>, n: nat, m: nat)
    requires m <= n < |ops| && ops[n].Grant?
    ensures Standing(ops, n + 1, m) == Standing(ops, n, m)
  {
    if m > 0 {
      StandingAfterGrant(ops, n, m - 1);
      assert Stands(ops, n + 1, m - 1) <==> Stands(ops, n, m - 1);
    }
  }

  lemma {:induction false} StandingDistinct(ops: seq<Op>, n: nat, m: nat)
    requires m <= n <= |ops|
    ensures Distinct(Standing(ops, n, m))
  {
    if m > 0 {
      StandingDistinct(ops, n, m - 1);
      if Stands(ops, n, m - 1) {
        StandsOnce(ops, n, m - 1);
        var before := Standing(ops, n, m - 1);
        assert forall i :: 0 <= i < |before| ==> before[i] in before;
      }
    }
  }

  lemma StandsAfterRevoke(ops: seq<Op>, n: nat, i: nat)
    requires i < n < |ops| && ops[n].Revoke?
    ensures Stands(ops, n + 1, i) <==> Stands(ops, n, i) && ops[i].role != ops[n].role
  {
  }

  lemma {:induction false} StandingAfterRevoke(ops: seq<Op>, n: nat, m: nat)
    requires m <= n < |ops| && ops[n].Revoke?
    ensures Standing(ops, n + 1, m) == Revoked(Standing(ops, n, m), ops[n].role)
  {
    if m > 0 {
      var before, after := Standing(ops, n, m - 1), Standing(ops, n + 1, m - 1);
      var last, role := ops[m - 1].role, ops[n].role;
      StandingAfterRevoke(ops, n, m - 1);
      StandsAfterRevoke(ops, n, m - 1);
      if Stands(ops, n, m - 1) {
        assert Standing(ops, n, m) == before + [last];
        StandsOnce(ops, n, m - 1);
        RevokedSnoc(before, last, role);
        if last == role {
          RevokedAbsent(before, role);
          assert Standing(ops, n + 1, m) == after + [] == after;
        } else {
          assert Standing(ops, n + 1, m) == after + [last];
        }
      } else {
        assert Standing(ops, n, m) == before + [] == before;
        assert Standing(ops, n + 1, m) == after + [] == after;
      }
    }
  }

  lemma StandsOnce(ops: seq<Op>, n: nat, m: nat)
    requires m < n <= |ops| && Stands(ops, n, m)
    ensures ops[m].role !in Standing(ops, n, m)
  {
    StandingMembers(ops, n, m, ops[m].role);
    forall i | 0 <= i < m && Stands(ops, n, i) ensures ops[i].role != ops[m].role {
      assert ops[i].role == ops[m].role ==> RevokedBetween(ops, ops[m].role, i, m);
    }
  }

  lemma {:induction false} RevokedSnoc(names: seq<Name>, last: Name, role: Name)
    requires last !in names
    ensures Revoked(names + [last], role) == if last == role then names else Revoked(names, role) + [last]
  {
    if names == [] {
      assert ([] + [last])[1..] == [];
    } else {
      assert (names + [last])[1..] == names[1..] + [last];
      RevokedSnoc(names[1..], last, role);
      assert names == [names[0]] + names[1..];
    }
  }

  /** A grant stands exactly when no earlier grant of the role does. */
  lemma NewGrantStands(ops: seq<Op>, n: nat)
    requires n < |ops| && ops[n].Grant?
    ensures Stands(ops, n + 1, n) <==> !exists i :: 0 <= i < n && Stands(ops, n, i) && ops[i].role == ops[n].role
  {
    var r := ops[n].role;
    if i :| 0 <= i < n && Stands(ops, n, i) && ops[i].role == r {
      assert ops[i] == ops[n] && !RevokedBetween(ops, r, i, n);
    } else {
      forall j | 0 <= j < n && ops[j] == ops[n] ensures RevokedBetween(ops, r, j, n) {
        if !RevokedBetween(ops, r, j, n) {
          SomeGrantStands(ops, n, j);
        }
      }
    }
  }

  lemma GrantKeeps(ops: seq<Op>, n: nat)
    requires n < |ops| && ops[n].Grant? && Run(ops, n) == Standing(ops, n, n) && Distinct(Run(ops, n))
    ensures Run(ops, n + 1) == Standing(ops, n + 1, n + 1) && Distinct(Run(ops, n + 1))
  {
    StandingAfterGrant(ops, n, n);
    StandingMembers(ops, n, n, ops[n].role);
    NewGrantStands(ops, n);
    hide Stands;
  }

  lemma RevokeKeeps(ops: seq<Op>, n: nat)
    requires n < |ops| && ops[n].Revoke? && Run(ops, n) == Standing(ops, n, n) && Distinct(Run(ops, n))
    ensures Run(ops, n + 1) == Standing(ops, n + 1, n + 1) && Distinct(Run(ops, n + 1))
  {
    StandingAfterRevoke(ops, n, n);
    RevokedMembers(Run(ops, n), ops[n].role, ops[n].role);
    assert !Stands(ops, n + 1, n);
    hide Stands, Distinct, Revoked;
  }

  /** After any sequence of grants and revokes the list is the standing grants, oldest
      first: no repetition, nothing revoked kept, nothing granted lost. */
  lemma {:induction false} RunIsStanding(ops: seq<Op>, n: nat)
    requires n <= |ops|
    ensures Run(ops, n) == Standing(ops, n, n)
    ensures Distinct(Run(ops, n))
  {
    if n > 0 {
      RunIsStanding(ops, n - 1);
      if ops[n - 1].Grant? { GrantKeeps(ops, n - 1); } else { RevokeKeeps(ops, n - 1); }
    }
  }

  // ------------------------------------------------------------------ the C store

  /** An answer, or a walk that read past the end of the list. */
  datatype Verdict = Said(yes: bool) | LeftList

  ghost function RolesOf(u: User): seq<Name> {
    Unpack(u.mem, u.nRoles)
  }

  /** The list has all the names its count says. */
  ghost predicate UserOk(u: User) {
    |RolesOf(u)| == u.nRoles
  }

  lemma RolesHeld(u: User)
    ensures Holds(u.mem, RolesOf(u))
  {
    UnpackHolds(u.mem, u.nRoles);
  }

  lemma UserWith(u: User, names: seq<Name>)
    requires Holds(u.mem, names) && u.nRoles == |names|
    ensures UserOk(u) && RolesOf(u) == names
  {
    UnpackPack(u.mem, names);
  }

  ghost function HeldBy(users: map<Name, User>): map<Name, seq<Name>> {
    map n | n in users :: RolesOf(users[n])
  }

  lemma HeldOf(users: map<Name, User>, name: Name)
    ensures name in HeldBy(users) <==> name in users
    ensures name in users ==> HeldBy(users)[name] == RolesOf(users[name])
  {
    hide RolesOf;
  }

  lemma HeldWith(users: map<Name, User>, name: Name, u: User)
    ensures HeldBy(users[name := u]) == HeldBy(users)[name := RolesOf(u)]
  {
    hide RolesOf;
  }

  /** The destination of revoke's move ends inside the user's allocation. */
  ghost predicate MoveFits(u: User, role: Name) {
    var names := RolesOf(u);
    forall i :: 0 <= i < |names| && names[i] == role ==>
      |Pack(names[..i])| + |Pack(names)| - |role| - 1 <= |u.mem|
  }

  lemma NoRoles(u: User)
    requires UserOk(u) && (u.nRoles == 0 || u.mem == [])
    ensures RolesOf(u) == []
  {
    RolesHeld(u);
    PackLength(RolesOf(u));
  }

  lemma {:induction false} MovedBlob(u: User, names: seq<Name>, i: nat, after: seq<byte>)
    requires Holds(u.mem, names) && i < |names| && names[i] !in names[..i] && |u.mem| <= |after|
    ensures |Pack(names[..i])| + |names[i]| + 1 <= |Pack(names)| <= |u.mem|
    ensures Revoked(names, names[i]) == Without(names, i)
    ensures var moved := RevokeMove(u.mem + after, |Pack(names[..i])|, |names[i]| + 1, |Pack(names)|);
            && |moved| == |u.mem| + |after|
            && Holds(moved[..|u.mem|], Without(names, i))
            && (|Pack(names[..i])| + |Pack(names)| - |names[i]| - 1 <= |u.mem| ==> moved[|u.mem|..] == after)
  {
    PackSplit(names, i);
    RevokedIsWithout(names, i);
    hide Revoked;
    RevokeMoveHolds(u.mem + after, names, i);
    PackConcat(names[..i], names[i + 1..]);
    var moved := RevokeMove(u.mem + after, |Pack(names[..i])|, |names[i]| + 1, |Pack(names)|);
    var blob := Pack(Without(names, i));
    hide Pack, Without;
    assert blob == moved[..|blob|] == moved[..|u.mem|][..|blob|];
  }

  /** The part of revoke that works on one user with at least one role. */
  method RevokeFrom(u: User, role: Name, after: seq<byte>)
    returns (found: bool, u': User, after': seq<byte>)
    requires UserOk(u) && |u.mem| <= |after|
    ensures found <==> role in RolesOf(u)
    ensures UserOk(u') && RolesOf(u') == Revoked(RolesOf(u), role) && u'.hash == u.hash
    ensures !found ==> u' == u && after' == after
    ensures MoveFits(u, role) ==> after' == after
  {
    RolesHeld(u);
    ghost var names := RolesOf(u);
    ghost var i;
    var at: Option<nat>;
    at, i := Find(u.mem, u.nRoles, role, names);
    if at.None? {
      RevokedAbsent(names, role);
      return false, u, after;
    }
    var removeLen := |role| + 1;
    var total := TotalLen(u.mem, u.nRoles, names);
    MovedBlob(u, names, i, after);
    var moved := RevokeMove(u.mem + after, at.value, removeLen, total);
    u' := u.(mem := moved[..|u.mem|], nRoles := u.nRoles - 1);
    if u'.nRoles == 0 {
      u' := u'.(mem := []);
      assert Without(names, i) == [];
    }
    UserWith(u', Without(names, i));
    return true, u', moved[|u.mem|..];
  }

  predicate IsRoot(name: Name) {
    name == ROOT
  }

  lemma NoneListed(u: User)
    requires u.mem == [] || u.nRoles == 0
    ensures RolesOf(u) == [] && (u.nRoles == 0 ==> Inside(u.mem, u.nRoles, IsRoot))
  {
  }

  lemma NoneLeft(mem: seq<byte>)
    ensures Unpack(mem, 0) == []
  {
  }

  lemma FirstOfRest(names: seq<Name>, i: nat, name: Name, rest: seq<Name>)
    requires i <= |names| && names[i..] == [name] + rest
    ensures i < |names| && names[i] == name && names[i + 1..] == rest
  {
    assert names[i..][0] == name && names[i..][1..] == rest;
  }

  /** Where the check leaves a list, in terms of the names: fewer than the count says, and not the
      root role. */
  lemma ShortIff(u: User)
    ensures (if u.mem != [] then !Inside(u.mem, u.nRoles, IsRoot) else u.nRoles > 0)
            <==> !UserOk(u) && ROOT !in RolesOf(u)
  {
    hide Inside, Unpack;
    InsideIff(u.mem, u.nRoles, IsRoot);
    if u.mem == [] { NoneListed(u); }
  }

  /** A user who is no administrator but whose list was walked to its end: the second walk stays
      inside too, unless there is no list and a count. */
  lemma CheckWalk(u: User, stop: Name -> bool)
    requires ROOT !in RolesOf(u) && (u.mem != [] ==> Inside(u.mem, u.nRoles, IsRoot))
    ensures Inside(u.mem, u.nRoles, stop) <==> u.mem != [] || u.nRoles == 0
  {
    hide Inside, Unpack;
    InsideIff(u.mem, u.nRoles, IsRoot);
    InsideIff(u.mem, u.nRoles, stop);
    if u.mem == [] { NoneListed(u); }
  }

  /** The loop of cetcd_auth_is_admin. */
  method ListsRoot(u: User) returns (r: Verdict)
    ensures r.Said? ==> (r.yes <==> ROOT in RolesOf(u))
    ensures r.LeftList? <==> !Inside(u.mem, u.nRoles, IsRoot)
  {
    hide Unpack, Inside;
    InsideIff(u.mem, u.nRoles, IsRoot);
    hide Terminated, StrLen;
    ghost var names := RolesOf(u);
    var p: nat := 0;
    assert u.mem[0..] == u.mem && names[0..] == names;
    for i := 0 to u.nRoles
      invariant p <= |u.mem| && i <= |names| && names[i..] == Unpack(u.mem[p..], u.nRoles - i)
      invariant forall j :: 0 <= j < i ==> !IsRoot(names[j])
    {
      WalkStep(u.mem, p, u.nRoles - i);
      var l := Scan(u.mem, p);
      if l.None? { return LeftList; }
      var name := u.mem[p..p + l.value];
      p := p + l.value + 1;
      FirstOfRest(names, i, name, Unpack(u.mem[p..], u.nRoles - i - 1));
      if l.value == 4 && name == ROOT { return Said(true); }
    }
    NoneLeft(u.mem[p..]);
    return Said(false);
  }

  /** The part of grant that works on one user. */
  method GrantTo(u: User, role: Name, allocOk: bool) returns (ok: bool, u': User)
    requires UserOk(u) && NulFree(role)
    ensures ok <==> role in RolesOf(u) || allocOk
    ensures ok ==> UserOk(u') && RolesOf(u') == Granted(RolesOf(u), role) && u'.hash == u.hash
  {
    RolesHeld(u);
    ghost var names := RolesOf(u);
    ghost var i;
    var at: Option<nat>;
    at, i := Find(u.mem, u.nRoles, role, names);
    if at.Some? { return true, u; }
    var oldLen := TotalLen(u.mem, u.nRoles, names);
    if !allocOk { return false, u; }
    // realloc keeps the first oldLen bytes of the old allocation
    u' := u.(mem := u.mem[..oldLen] + role + [0], nRoles := u.nRoles + 1);
    GrantedHolds(u.mem, names, role);
    hide Pack, Unpack, Holds;
    UserWith(u', names + [role]);
    ok := true;
  }

  class Store {
    var users: map<Name, User>
    var roles: map<Name, Role>
    var enabled: bool

    ghost predicate Valid()
      reads this
    {
      forall n :: n in users ==> NulFree(n) && UserOk(users[n])
    }

    ghost function View(): Rbac
      reads this
    {
      Rbac(HeldBy(users), roles, enabled)
    }

    constructor ()
      ensures Valid() && View() == Rbac(map[], map[], false)
    {
      users, roles, enabled := map[], map[], false;
    }

    /** `allocOk` is whether the allocations of the account and its table slot succeed. */
    method AddUser(name: Name, hash: seq<byte>, allocOk: bool) returns (rc: Status)
      requires Valid() && NulFree(name)
      modifies this`users
      ensures Valid()
      ensures rc == if name == [] || !(0 < |hash| <= 64) then Invalid
                    else if name in old(users) then Exists else if !allocOk then NoMem else Ok
      ensures users == if rc.Ok? then old(users)[name := User(hash, [], 0)] else old(users)
      ensures View().held == if rc.Ok? then old(View()).held[name := []] else old(View()).held
    {
      hide RolesOf, UserOk, NulFree, HeldBy;
      if name == [] || |hash| == 0 || |hash| > 64 { return Invalid; }
      if name in users { return Exists; }
      if !allocOk { return NoMem; }
      var u := User(hash, [], 0);
      UserWith(u, []);
      HeldWith(users, name, u);
      users := users[name := u];
      return Ok;
    }

    method AddRole(name: Name, role: Role) returns (rc: Status)
      requires Valid()
      modifies this`roles
      ensures Valid() && rc == if name in old(roles) then Exists else Ok
      ensures roles == if rc.Ok? then old(roles)[name := role] else old(roles)
    {
      if name in roles { return Exists; }
      roles := roles[name := role];
      return Ok;
    }

    /** Users keep the name of a removed role in their list. */
    method RemoveRole(name: Name) returns (rc: Status)
      requires Valid()
      modifies this`roles
      ensures Valid() && rc == if name in old(roles) then Ok else NotFound
      ensures roles == old(roles) - {name}
    {
      if name !in roles { return NotFound; }
      roles := roles - {name};
      return Ok;
    }

    /** `allocOk` is whether realloc succeeds. */
    method GrantRole(user: Name, role: Name, allocOk: bool) returns (rc: Status)
      requires Valid() && NulFree(role)
      modifies this`users
      ensures Valid()
      ensures rc.NotFound? <==> user !in old(users) || role !in roles
      ensures rc.NoMem? <==> user in old(users) && role in roles && role !in old(View()).held[user] && !allocOk
      ensures View().held == if rc.Ok? then old(View()).held[user := Granted(old(View()).held[user], role)]
                             else old(View()).held
      ensures rc.Ok? ==> user in users && users == old(users)[user := users[user]]
      ensures rc.Ok? ==> users[user].hash == old(users)[user].hash
    {
      hide RolesOf, UserOk, NulFree, Granted, HeldBy;
      HeldOf(users, user);
      if user !in users { return NotFound; }
      var u := users[user];
      if role !in roles { return NotFound; }
      var ok, u' := GrantTo(u, role, allocOk);
      if !ok { return NoMem; }
      HeldWith(users, user, u');
      users := users[user := u'];
      return Ok;
    }

    /** `after` is the memory that follows the user's blob, and `after'` what the move
        leaves there. */
    method RevokeRole(user: Name, role: Name, after: seq<byte>) returns (rc: Status, after': seq<byte>)
      requires Valid()
      requires user in users ==> |users[user].mem| <= |after|
      modifies this`users
      ensures Valid()
      ensures rc == if user in old(users) && role in old(View()).held[user] then Ok else NotFound
      ensures View().held == if rc.Ok? then old(View()).held[user := Revoked(old(View()).held[user], role)]
                             else old(View()).held
      ensures rc.NotFound? ==> after' == after
      ensures rc.Ok? ==> MoveFits(old(users)[user], role) ==> after' == after
      ensures rc.Ok? ==> user in users && users == old(users)[user := users[user]]
    {
      hide RolesOf, MoveFits, Revoked, UserOk, NulFree, HeldBy;
      HeldOf(users, user);
      if user !in users { return NotFound, after; }
      var u := users[user];
      if u.nRoles == 0 || u.mem == [] {
        NoRoles(u);
        return NotFound, after;
      }
      var found, u', rest := RevokeFrom(u, role, after);
      if !found { return NotFound, after; }
      HeldWith(users, user, u');
      users := users[user := u'];
      return Ok, rest;
    }

    /** On any account, whatever its list and its count. */
    method IsAdmin(user: Name) returns (r: Verdict)
      ensures r.Said? ==> r.yes == Admin(View(), user)
      ensures r.LeftList? <==> user != ROOT && user in users && users[user].mem != []
                               && !Inside(users[user].mem, users[user].nRoles, IsRoot)
    {
      hide RolesOf, HeldBy, Inside;
      HeldOf(users, user);
      if user == ROOT { return Said(true); }
      if user !in users { return Said(false); }
      var u := users[user];
      if u.mem == [] || u.nRoles == 0 {
        NoneListed(u);
        return Said(false);
      }
      r := ListsRoot(u);
    }

    /** On any account, whatever its list and its count: the check answers as promised, or its walk
        leaves the list.  That happens exactly when there are fewer names than the count says, the root
        role not among them. */
    method CheckPerm(user: Name, key: seq<byte>, wantWrite: bool) returns (r: Verdict)
      ensures r.Said? ==> r.yes == Allowed(View(), user, key, wantWrite)
      ensures r.LeftList? <==>
                && enabled && user != ROOT && user in users
                && (if users[user].mem != [] then !Inside(users[user].mem, users[user].nRoles, IsRoot)
                    else users[user].nRoles > 0)
      ensures r.LeftList? <==>
                enabled && user != ROOT && user in users && !UserOk(users[user]) && ROOT !in RolesOf(users[user])
    {
      hide Grants, RolesOf, HeldBy, Inside, UserOk;
      HeldOf(users, user);
      if user in users { ShortIff(users[user]); }
      if !enabled { return Said(true); }
      var admin := IsAdmin(user);
      if admin.LeftList? { return LeftList; }
      if user in users && users[user].mem == [] { NoneListed(users[user]); }
      if admin.yes { return Said(true); }
      if user !in users { return Said(false); }
      var u, rs := users[user], roles;
      ghost var stop: Name -> bool := name => Grants(rs, name, key, wantWrite);
      CheckWalk(u, stop);
      r := AnyGrants(u, key, wantWrite, stop);
    }

    /** The loop of the check over one user's list; `stop` is what ends it. */
    method AnyGrants(u: User, key: seq<byte>, wantWrite: bool, ghost stop: Name -> bool) returns (r: Verdict)
      requires forall name :: stop(name) <==> Grants(roles, name, key, wantWrite)
      ensures r.Said? ==> (r.yes <==> exists i :: 0 <= i < |RolesOf(u)| && Grants(roles, RolesOf(u)[i], key, wantWrite))
      ensures r.LeftList? <==> !Inside(u.mem, u.nRoles, stop)
    {
      hide Grants, Unpack, Inside;
      InsideIff(u.mem, u.nRoles, stop);
      hide Terminated, StrLen;
      ghost var names := RolesOf(u);
      var p: nat := 0;
      assert u.mem[0..] == u.mem && names[0..] == names;
      for i := 0 to u.nRoles
        invariant p <= |u.mem| && i <= |names| && names[i..] == Unpack(u.mem[p..], u.nRoles - i)
        invariant forall j :: 0 <= j < i ==> !stop(names[j])
      {
        WalkStep(u.mem, p, u.nRoles - i);
        var l := Scan(u.mem, p);
        if l.None? { return LeftList; }
        var name := u.mem[p..p + l.value];
        p := p + l.value + 1;
        FirstOfRest(names, i, name, Unpack(u.mem[p..], u.nRoles - i - 1));
        var granted := RoleGrants(name, key, wantWrite);
        if granted { return Said(true); }
      }
      NoneLeft(u.mem[p..]);
      return Said(false);
    }

    /** One role of the list, in the loop of the check. */
    method RoleGrants(name: Name, key: seq<byte>, wantWrite: bool) returns (r: bool)
      ensures r == Grants(roles, name, key, wantWrite)
    {
      if name !in roles { return false; }
      var role := roles[name];
      if wantWrite {
        if role.permWrite == 0 { return false; }
      } else {
        if role.permRead == 0 && role.permWrite == 0 { return false; }
      }
      return PermCovers(key, role.prefix, role.rangeEnd);
    }
  }

  lemma {:induction false} GrantedHolds(mem: seq<byte>, names: seq<Name>, role: Name)
    requires Holds(mem, names) && NulFree(role)
    ensures Holds(mem[..|Pack(names)|] + role + [0], names + [role])
  {
    PackSnoc(names, role);
    assert mem[..|Pack(names)|] == Pack(names);
    var all := names + [role];
    assert forall j :: 0 <= j < |all| ==> all[j] == if j < |names| then names[j] else role;
    assert mem[..|Pack(names)|] + role + [0] == Pack(names) + (role + [0]);
  }

  /** Revoking the second of two roles right after both were granted: the move runs past
      the blob and changes the byte that follows it. */
  lemma RevokeOverrunsExample()
    ensures var names: seq<Name> := [[97, 97], [98]];
            var mem: seq<byte> := [97, 97, 0, 98, 0];
            && Pack(names) == mem
            && RevokeMove(mem + [7, 0, 0, 0, 0], 3, 2, 5)[5..] != [7, 0, 0, 0, 0]
  {
    var names: seq<Name> := [[97, 97], [98]];
    assert names[1..] == [[98]];
    PackSingle([98]);
    var after: seq<byte> := [7, 0, 0, 0, 0];
    assert ([97, 97, 0, 98, 0] + after)[7] == 0;
    assert RevokeMove([97, 97, 0, 98, 0] + after, 3, 2, 5)[5..][0] == 0;
  }
}
