/** Who may change whose role, and what each write leaves (`identity.py`, the people routes of
    `api.py`): the answers of the routes in terms of the caller, the records and the request. */
module Authority {
  import opened Identity
  import opened PyText
  import opened Roles

  // ---- reading a store ----

  /** The record that stands for the id: the first one with it. */
  predicate IsRecord(users: Users, i: int, id: string) {
    0 <= i < |users| && users[i].userId == id && forall j :: 0 <= j < i ==> users[j].userId != id
  }

  predicate HasRecord(users: Users, id: string) { exists i :: 0 <= i < |users| && users[i].userId == id }

  /** The person whose record is the first that reads as owner. */
  predicate IsOwner(users: Users, id: string) {
    exists i :: 0 <= i < |users| && users[i].userId == id && RoleOf(users[i]) == Owner
                && forall j :: 0 <= j < i ==> RoleOf(users[j]) != Owner
  }

  predicate NoOwner(users: Users) { forall i :: 0 <= i < |users| ==> RoleOf(users[i]) != Owner }

  /** The role a record reads as: the stored one; without a readable one, owner for the primary
      person, admin for the legacy scope, member otherwise. */
  lemma WhatRecordsSay(u: Record)
    ensures forall role :: u.role == Has(role) ==> RoleOf(u) == role
    ensures !u.role.Has? ==>
              && (RoleOf(u) == Owner <==> u.userId == "primary")
              && (RoleOf(u) == Admin <==> u.userId != "primary" && "admin" in u.scopes)
              && (RoleOf(u) == Member <==> u.userId != "primary" && "admin" !in u.scopes)
  {
  }

  lemma {:induction false} LookupIs(users: Users, id: string)
    ensures match Lookup(users, id) case None => !HasRecord(users, id) case Some(i) => IsRecord(users, i, id)
  {
    if users != [] {
      var n := |users| - 1;
      LookupIs(users[..n], id);
      if Lookup(users[..n], id).None? {
        assert forall j :: 0 <= j < n ==> users[j] == users[..n][j] && users[j].userId != id;
      }
    }
  }

  lemma {:induction false} FirstOwnerIff(users: Users, id: string)
    ensures FirstOwner(users) == Some(id) <==> IsOwner(users, id)
    ensures FirstOwner(users) == None <==> NoOwner(users)
  {
    if users != [] {
      var n := |users| - 1;
      FirstOwnerIff(users[..n], id);
      assert forall j :: 0 <= j < n ==> users[..n][j] == users[j];
      if IsOwner(users[..n], id) {
        var i :| 0 <= i < n && users[i].userId == id && RoleOf(users[i]) == Owner
                 && forall j :: 0 <= j < i ==> RoleOf(users[j]) != Owner;
      }
      if IsOwner(users, id) {
        var i :| 0 <= i < |users| && users[i].userId == id && RoleOf(users[i]) == Owner
                 && forall j :: 0 <= j < i ==> RoleOf(users[j]) != Owner;
        assert i < n ==> users[..n][i] == users[i];
      }
      if FirstOwner(users[..n]).Some? {
        FirstOwnerStands(users[..n]);
      }
    }
  }

  lemma {:induction false} FirstOwnerStands(users: Users)
    requires FirstOwner(users).Some?
    ensures !NoOwner(users)
  {
    var n := |users| - 1;
    if FirstOwner(users[..n]).Some? {
      FirstOwnerStands(users[..n]);
      var i :| 0 <= i < n && RoleOf(users[..n][i]) == Owner;
      assert RoleOf(users[i]) == Owner;
    } else {
      assert RoleOf(users[n]) == Owner;
    }
  }

  /** Only the record `i` is written: it has the role, and no legacy scope that could outrank it. */
  predicate OnlyRole(before: Users, after: Users, i: int, role: Role) {
    && 0 <= i < |before| == |after|
    && (forall j :: 0 <= j < |before| && j != i ==> after[j] == before[j])
    && after[i].role == Has(role) && after[i].scopes == before[i].scopes - {"admin"}
    && after[i].userId == before[i].userId && after[i].displayName == before[i].displayName
    && after[i].tokens == before[i].tokens && after[i].enabled == before[i].enabled
    && after[i].guestUntil == before[i].guestUntil
  }

  // ---- setting a role ----

  predicate Assignable(name: string) { name in {"admin", "member", "supervised", "guest"} }

  lemma AssignableIff(name: string)
    ensures Assignable(name) <==> exists role :: IsNamed(role, name) && role != Owner
    ensures Assignable(name) <==> RoleNamed(name).Some? && RoleNamed(name) != Some(Owner)
  {
    if name == "admin" {
      assert IsNamed(Admin, name);
    } else if name == "member" {
      assert IsNamed(Member, name);
    } else if name == "supervised" {
      assert IsNamed(Supervised, name);
    } else if name == "guest" {
      assert IsNamed(Guest, name);
    }
  }

  /** Every answer of the role route: it changes a role if and only if the caller manages people,
      the role may be given, and the target has a record and is neither the owner nor the caller. */
  lemma RoleRouteIff(users: Users, who: Option<Principal>, id: string, role: string)
    ensures var (status, after) := RoleRoute(users, who, id, role);
            var may, self := who.Some? && Manages(who.value), who.Some? && who.value.id == id;
            var barred := IsOwner(users, id) || self;
            && (status == 403 <==> !may || (Assignable(role) && barred))
            && (status == 422 <==> may && !Assignable(role))
            && (status == 404 <==> may && Assignable(role) && !barred && !HasRecord(users, id))
            && (status == 200 <==> may && Assignable(role) && !barred && HasRecord(users, id))
            && (status != 200 ==> after == users)
            && (status == 200 ==>
                  exists i, r :: IsRecord(users, i, id) && IsNamed(r, role) && OnlyRole(users, after, i, r))
  {
    if who.Some? { WhoCan(who.value); }
    AssignableIff(role);
    FirstOwnerIff(users, id);
    LookupIs(users, id);
    if Assignable(role) && Lookup(users, id).Some? {
      NamedIff(role, RoleNamed(role).value);
      var i := Lookup(users, id).value;
      assert OnlyRole(users, RoleSet(users, id, RoleNamed(role).value), i, RoleNamed(role).value);
    }
  }

  // ---- handing on ownership ----

  /** `[A-Za-z0-9][A-Za-z0-9._-]{0,63}` */
  predicate PrincipalId(id: string) {
    && 1 <= |id| <= 64
    && (forall c :: c in id ==> 'a' <= c <= 'z' || 'A' <= c <= 'Z' || '0' <= c <= '9' || c in {'.', '_', '-'})
    && id[0] !in {'.', '_', '-'}
  }

  lemma SafeIdIff(id: string)
    ensures SafeId(id) <==> PrincipalId(id)
  {
    if SafeId(id) {
      forall c | c in id ensures 'a' <= c <= 'z' || 'A' <= c <= 'Z' || '0' <= c <= '9' || c in {'.', '_', '-'} {
        var i :| 0 <= i < |id| && id[i] == c;
      }
    }
    if PrincipalId(id) {
      assert id[0] in id;
      forall i | 0 <= i < |id| ensures SafeChar(id[i]) || id[i] == '.' || id[i] == '_' || id[i] == '-' {
        assert id[i] in id;
      }
    }
  }

  /** Whose ownership moves: the owner's, or, in a store without one, the caller's own. */
  predicate HandsOn(users: Users, who: Principal, from: string) {
    IsOwner(users, from) || (NoOwner(users) && from == who.id)
  }

  ghost predicate IsAdmin(users: Users, id: string) {
    exists i :: IsRecord(users, i, id) && RoleOf(users[i]) == Admin
  }

  /** The target is the owner, the giver an admin if there is a record, and the rest as it was. */
  ghost predicate HandedOn(before: Users, after: Users, from: string, to: string) {
    && |after| == |before|
    && (exists t :: IsRecord(before, t, to) && after[t].role == Has(Owner))
    && (forall i :: IsRecord(before, i, from) ==> after[i].role == Has(Admin))
    && (forall i :: 0 <= i < |before| && !IsRecord(before, i, from) && !IsRecord(before, i, to) ==>
          after[i] == before[i])
  }

  /** Every answer of the transfer route. Only a person or service that is the owner moves ownership,
      only to somebody else who is an admin, and exactly the two records change. */
  lemma TransferRouteIff(users: Users, who: Option<Principal>, to: string, from: string)
    requires who.Some? ==> HandsOn(users, who.value, from)
    ensures var (status, after) := TransferRoute(users, who, to);
            var may, target := who.Some? && who.value.role == Owner && who.value.kind != Agent, Strip(to);
            && (status == 403 <==> !may)
            && status != 409
            && (status == 404 <==> may && PrincipalId(target) && target != from && !HasRecord(users, target))
            && (status == 422 <==> may && (|| !PrincipalId(target) || target == from
                                           || (HasRecord(users, target) && !IsAdmin(users, target))))
            && (status == 200 <==> may && PrincipalId(target) && target != from && IsAdmin(users, target))
            && (status != 200 ==> after == users)
            && (status == 200 ==> HandedOn(users, after, from, target))
  {
    if who.Some? {
      WhoCan(who.value);
      GiverIs(users, who.value, from);
    }
    SafeIdIff(Strip(to));
    LookupIs(users, Strip(to));
    OneRecord(users, Strip(to));
    if TransferRoute(users, who, to).0 == 200 { HandedOnBy(users, from, Strip(to)); }
  }

  lemma GiverIs(users: Users, who: Principal, from: string)
    requires HandsOn(users, who, from)
    ensures who.role == Owner ==> Giver(users, Some(who)) == Some(from)
  {
    FirstOwnerIff(users, from);
  }

  lemma OneRecord(users: Users, id: string)
    ensures forall i, j :: IsRecord(users, i, id) && IsRecord(users, j, id) ==> i == j
    ensures HasRecord(users, id) <==> exists i :: IsRecord(users, i, id)
  {
    LookupIs(users, id);
  }

  lemma HandedOnBy(users: Users, from: string, to: string)
    requires from != to && HasRecord(users, to)
    ensures HandedOn(users, RoleSet(RoleSet(users, from, Admin), to, Owner), from, to)
  {
    LookupIs(users, from);
    LookupIs(users, to);
    OneRecord(users, from);
    OneRecord(users, to);
    var mid := RoleSet(users, from, Admin);
    SameRecord(users, mid, to);
    LookupIs(mid, to);
    OneRecord(mid, to);
    assert IsRecord(mid, Lookup(users, to).value, to);
  }

  lemma SameRecord(users: Users, mid: Users, id: string)
    requires |users| == |mid| && forall i :: 0 <= i < |users| ==> mid[i].userId == users[i].userId
    ensures forall i :: IsRecord(mid, i, id) <==> IsRecord(users, i, id)
    ensures HasRecord(mid, id) <==> HasRecord(users, id)
  {
  }

  // ---- the other writes ----

  ghost predicate HasHighest(groups: seq<string>, entries: seq<string>) {
    exists role :: HighestRole(groups, entries, role)
  }

  lemma HighestOrNone(groups: seq<string>, entries: seq<string>, role: Option<Role>)
    requires if role.Some? then HighestRole(groups, entries, role.value) else NoRole(groups, entries)
    ensures HasHighest(groups, entries) <==> role.Some?
  {
    if role.None? {
      forall r ensures !HighestRole(groups, entries, r) { NoRoleNoHighest(groups, entries, r); }
    }
  }

  /** A person, with a record that is not an owner's. */
  ghost predicate Settable(users: Users, who: Principal) {
    who.kind == Person && exists i :: IsRecord(users, i, who.id) && RoleOf(users[i]) != Owner
  }

  lemma GroupRoleWrites(users: Users, who: Principal, groups: seq<string>, mapping: string)
    ensures var after, role := GroupRoleApplied(users, who, groups, mapping), RoleForGroups(groups, mapping);
            && (role.None? || !Settable(users, who) ==> after == users)
            && (role.Some? && Settable(users, who) ==>
                  exists i :: IsRecord(users, i, who.id) && OnlyRole(users, after, i, role.value))
  {
    LookupIs(users, who.id);
    OneRecord(users, who.id);
    var role := RoleForGroups(groups, mapping);
    if role.Some? && Lookup(users, who.id).Some? {
      var i := Lookup(users, who.id).value;
      assert OnlyRole(users, RoleSet(users, who.id, role.value), i, role.value);
    }
  }

  /** A group sign-in writes a role if and only if the caller is a person with a record that is not
      an owner's and the groups have one; it writes the highest, and nothing else. */
  lemma GroupSignInIff(users: Users, who: Principal, groups: seq<string>, entries: seq<string>)
    requires entries != [] && forall i :: 0 <= i < |entries| ==> ',' !in entries[i]
    ensures var after := GroupRoleApplied(users, who, groups, Join(",", entries));
            && (!HasHighest(groups, entries) || !Settable(users, who) ==> after == users)
            && (HasHighest(groups, entries) && Settable(users, who) ==>
                  exists i, r :: IsRecord(users, i, who.id) && OnlyRole(users, after, i, r)
                                 && HighestRole(groups, entries, r))
  {
    RoleForGroupsMeans(groups, entries);
    HighestOrNone(groups, entries, RoleForGroups(groups, Join(",", entries)));
    GroupRoleWrites(users, who, groups, Join(",", entries));
  }

  predicate SameBut(before: Users, after: Users, i: int) {
    |after| == |before| && forall j :: 0 <= j < |before| && j != i ==> after[j] == before[j]
  }

  /** A display name goes to the person's record and nowhere else; somebody without one gets a
      record without credentials, as owner if and only if it is the primary person. */
  lemma NameSetMeans(users: Users, id: string, name: string)
    ensures var after := NameSet(users, id, name);
            && (HasRecord(users, id) ==>
                  exists i :: IsRecord(users, i, id) && SameBut(users, after, i)
                              && after[i] == users[i].(displayName := Some(name)))
            && (!HasRecord(users, id) ==>
                  exists u: Record ::
                    after == users + [u] && u.userId == id && u.displayName == Some(name) && u.tokens == [] && u.enabled
                    && u.scopes == {} && u.guestUntil == None
                    && (u.role == Has(Owner) || u.role == Has(Member)) && (u.role == Has(Owner) <==> id == "primary"))
  {
    LookupIs(users, id);
    if Lookup(users, id).Some? {
      var i := Lookup(users, id).value;
      assert SameBut(users, NameSet(users, id, name), i);
    } else {
      assert NameSet(users, id, name)[|users|].userId == id;
    }
  }

  /** Making sure of the primary person leaves a primary record that can sign in; one that is there
      keeps its credentials, and a role it has been given, and no other record changes. */
  lemma PrimaryIsEnsured(users: Users, token: string)
    ensures var after := PrimaryEnsured(users, token);
            exists i :: IsRecord(after, i, "primary") && after[i].tokens != [] && after[i].role != Absent
                        && after[i].role != Unreadable(true)
                        && (!HasRecord(users, "primary") ==>
                              after == users + [after[i]] && after[i].tokens == [token] && after[i].role == Has(Owner)
                              && after[i].enabled && after[i].displayName == Some("Primary person"))
                        && (HasRecord(users, "primary") ==>
                              && SameBut(users, after, i)
                              && after[i].tokens == (if users[i].tokens == [] then [token] else users[i].tokens)
                              && (users[i].role in {Absent, Unreadable(true)} ==> after[i].role == Has(Owner))
                              && after[i].(tokens := [], role := Absent) == users[i].(tokens := [], role := Absent)
                              && (users[i].role !in {Absent, Unreadable(true)} ==> after[i].role == users[i].role))
  {
    var after := PrimaryEnsured(users, token);
    LookupIs(users, "primary");
    var i := if Lookup(users, PRIMARY).Some? then Lookup(users, PRIMARY).value else |users|;
    assert IsRecord(after, i, "primary");
  }
}
