/** The local people store and who owns the install (`identity.py`), with the people routes
    of the API that write roles. */
module Identity {
  import opened PyText
  import opened Roles

  const PRIMARY := "primary"

  /** The `role` field of a record: absent, a role, or some other value (blank or not). */
  datatype Stored = Absent | Has(role: Role) | Unreadable(blank: bool)

  datatype Record = Record(userId: string, displayName: Option<string>, role: Stored, scopes: set<string>,
                           tokens: seq<string>, enabled: bool, guestUntil: Option<string>)

  type Users = seq<Record>

  /** `role_for_record` */
  function RoleOf(u: Record): Role {
    if u.role.Has? then u.role.role
    else if u.userId == PRIMARY then Owner
    else if "admin" in u.scopes then Admin
    else Member
  }

  // ---- operations on the list of records ----

  /** The first record with the id. */
  function Lookup(users: Users, id: string): (r: Option<nat>)
    ensures r.Some? ==> r.value < |users| && users[r.value].userId == id
    ensures r.None? ==> forall u :: u in users ==> u.userId != id
  {
    if users == [] then None
    else
      match Lookup(users[..|users| - 1], id)
      case Some(i) => Some(i)
      case None => if users[|users| - 1].userId == id then Some(|users| - 1) else None
  }

  function NewRecord(id: string, name: Option<string>, role: Role, tokens: seq<string>, until: Option<string>): Record {
    Record(id, name, Has(role), {}, tokens, true, until)
  }

  function WithRole(u: Record, role: Role): Record { u.(role := Has(role), scopes := u.scopes - {"admin"}) }

  /** `create_user`, which refuses an id that is taken. */
  function Created(users: Users, u: Record): Users {
    if Lookup(users, u.userId).Some? then users else users + [u]
  }

  function RoleSet(users: Users, id: string, role: Role): Users {
    match Lookup(users, id)
    case None => users
    case Some(i) => users[i := WithRole(users[i], role)]
  }

  function NameSet(users: Users, id: string, name: string): Users {
    match Lookup(users, id)
    case Some(i) => users[i := users[i].(displayName := Some(name))]
    case None => users + [NewRecord(id, Some(name), if id == PRIMARY then Owner else Member, [], None)]
  }

  function MigratedRecord(u: Record): Record {
    if u.role.Has? then
      if "admin" in u.scopes && u.role.role == Member then u.(role := Has(Admin)) else u
    else u.(role := Has(RoleOf(u)))
  }

  function Migrated(users: Users): Users {
    seq(|users|, i requires 0 <= i < |users| => MigratedRecord(users[i]))
  }

  /** The primary record once it has been seen to: a token it can sign in with, and a role. */
  function Healed(u: Record, token: string): Record {
    u.(tokens := if u.tokens == [] then [token] else u.tokens,
       role := if u.role == Absent || u.role == Unreadable(true) then Has(Owner) else u.role)
  }

  function PrimaryEnsured(users: Users, token: string): Users {
    match Lookup(users, PRIMARY)
    case Some(i) => users[i := Healed(users[i], token)]
    case None => users + [NewRecord(PRIMARY, Some("Primary person"), Owner, [token], None)]
  }

  function FirstOwner(users: Users): Option<string> {
    if users == [] then None
    else
      var before := FirstOwner(users[..|users| - 1]);
      if before.Some? then before
      else if RoleOf(users[|users| - 1]) == Owner then Some(users[|users| - 1].userId) else None
  }

  /** `apply_group_role`, as far as the store goes. */
  function GroupRoleApplied(users: Users, who: Principal, groups: seq<string>, mapping: string): Users {
    var role, i := RoleForGroups(groups, mapping), Lookup(users, who.id);
    if who.kind != Person || role.None? || i.None? || RoleOf(users[i.value]) == Owner then users
    else RoleSet(users, who.id, role.value)
  }

  // ---- the store ----

  /** The loop of `migrate_roles`, counting the records it rewrites. */
  method MigrateRecords(before: Users) returns (records: Users, changed: nat)
    ensures records == Migrated(before) && changed == Differences(before, records)
  {
    records, changed := before, 0;
    for k := 0 to |before|
      invariant |records| == |before|
      invariant forall j :: 0 <= j < k ==> records[j] == MigratedRecord(before[j])
      invariant forall j :: k <= j < |records| ==> records[j] == before[j]
      invariant changed == Differences(before[..k], records[..k])
    {
      ghost var earlier := records;
      var u := records[k];
      if u.role.Has? {
        if "admin" in u.scopes && u.role.role == Member {
          records := records[k := u.(role := Has(Admin))];
          assert records[k] != before[k];
          changed := changed + 1;
        }
        DifferencesNext(before, earlier, records, k);
        continue;
      }
      records := records[k := u.(role := Has(RoleOf(u)))];
      assert records[k] != before[k];
      changed := changed + 1;
      DifferencesNext(before, earlier, records, k);
    }
    assert before[..|before|] == before && records[..|before|] == records;
  }

  class IdentityStore {
    var users: Users

    constructor ()
      ensures users == []
    {
      users := [];
    }

    method IndexOf(id: string) returns (i: Option<nat>)
      ensures i == Lookup(users, id)
    {
      for k := 0 to |users|
        invariant Lookup(users[..k], id) == None
      {
        assert users[..k + 1][..k] == users[..k];
        if users[k].userId == id {
          LookupInPrefix(users, k + 1, id);
          return Some(k);
        }
      }
      assert users[..|users|] == users;
      return None;
    }

    method CreateUser(id: string, name: Option<string>, token: Option<string>, role: Stored, until: Option<string>)
      returns (created: bool)
      modifies this
      ensures created == Lookup(old(users), id).None?
      ensures users == Created(old(users), NewRecord(id, name, if role.Has? then role.role else Member,
                                                     if token.Some? then [token.value] else [], until))
    {
      var i := IndexOf(id);
      if i.Some? {
        return false;
      }
      var u := NewRecord(id, name, if role.Has? then role.role else Member, [], until);
      if token.Some? {
        assert u.tokens + [token.value] == [token.value];
        u := u.(tokens := u.tokens + [token.value]);
      }
      users := users + [u];
      return true;
    }

    method SetRole(id: string, role: Role) returns (found: bool)
      modifies this
      ensures found == Lookup(old(users), id).Some? && users == RoleSet(old(users), id, role)
    {
      var i := IndexOf(id);
      if i.None? {
        return false;
      }
      var u := users[i.value];
      users := users[i.value := u.(role := Has(role), scopes := u.scopes - {"admin"})];
      return true;
    }

    method OwnerId() returns (owner: Option<string>)
      ensures owner == FirstOwner(users)
    {
      for k := 0 to |users|
        invariant FirstOwner(users[..k]) == None
      {
        assert users[..k + 1][..k] == users[..k];
        if RoleOf(users[k]) == Owner {
          OwnerInPrefix(users, k + 1);
          return Some(users[k].userId);
        }
      }
      assert users[..|users|] == users;
      return None;
    }

    method MigrateRoles() returns (changed: nat)
      modifies this
      ensures users == Migrated(old(users))
      ensures changed == Differences(old(users), users)
    {
      var records;
      records, changed := MigrateRecords(users);
      NoDifferences(users, records);
      NoDifferences(users, users);
      if changed > 0 {
        users := records;
      }
    }

    method SetDisplayName(id: string, name: string)
      modifies this
      ensures users == NameSet(old(users), id, name)
    {
      var i := IndexOf(id);
      if i.Some? {
        users := users[i.value := users[i.value].(displayName := Some(name))];
        return;
      }
      users := users + [NewRecord(id, Some(name), if id == PRIMARY then Owner else Member, [], None)];
    }

    method LegacyPrimary(token: string)
      modifies this
      ensures users == PrimaryEnsured(old(users), token)
    {
      var i := IndexOf(PRIMARY);
      if i.Some? {
        var u := users[i.value];
        if u.tokens == [] {
          assert u.tokens + [token] == [token];
          u := u.(tokens := u.tokens + [token]);
        }
        if u.role == Absent || u.role == Unreadable(true) {
          u := u.(role := Has(Owner));
        }
        users := users[i.value := u];
        return;
      }
      var created := CreateUser(PRIMARY, Some("Primary person"), Some(token), Has(Owner), None);
    }

    method ApplyGroupRole(who: Principal, groups: seq<string>, mapping: string)
      modifies this
      ensures users == GroupRoleApplied(old(users), who, groups, mapping)
    {
      if who.kind != Person || groups == [] || mapping == "" {
        return;
      }
      var role := FindRoleForGroups(groups, mapping);
      if role.None? {
        return;
      }
      var current := IndexOf(who.id);
      if current.None? {
        return;
      }
      if RoleOf(users[current.value]) == Owner {
        return;
      }
      var found := SetRole(who.id, role.value);
    }

    /** `PUT /api/people/{user_id}/role`; the status it answers with. */
    method PeopleSetRole(who: Option<Principal>, id: string, role: string) returns (status: nat)
      modifies this
      ensures (status, users) == RoleRoute(old(users), who, id, role)
    {
      if !Can(who, ManagePeople) {
        return 403;
      }
      var wanted := RoleNamed(role);
      if wanted.None? {
        return 422;
      }
      if wanted.value == Owner {
        return 422;
      }
      var owner := OwnerId();
      if owner == Some(id) {
        return 403;
      }
      if id == who.value.id {
        return 403;
      }
      var found := SetRole(id, wanted.value);
      return if found then 200 else 404;
    }

    /** `POST /api/people/transfer-ownership` */
    method PeopleTransferOwnership(who: Option<Principal>, to: string) returns (status: nat)
      modifies this
      ensures (status, users) == TransferRoute(old(users), who, to)
    {
      if !Can(who, TransferOwnership) {
        return 403;
      }
      if !SafeId(Strip(to)) {
        return 422;
      }
      var target := Strip(to);
      var owner := OwnerId();
      if owner.None? {
        owner := if who.value.role == Owner then Some(who.value.id) else None;
      }
      if owner.None? {
        return 409;
      }
      if target == owner.value {
        return 422;
      }
      var i := IndexOf(target);
      if i.None? {
        return 404;
      }
      if RoleOf(users[i.value]) != Admin {
        return 422;
      }
      var _ := SetRole(owner.value, Admin);
      var _ := SetRole(target, Owner);
      return 200;
    }
  }

  function RoleRoute(users: Users, who: Option<Principal>, id: string, role: string): (nat, Users) {
    if !Can(who, ManagePeople) then (403, users)
    else
      match RoleNamed(role)
      case None => (422, users)
      case Some(wanted) =>
        if wanted == Owner then (422, users)
        else if FirstOwner(users) == Some(id) || id == who.value.id then (403, users)
        else (if Lookup(users, id).Some? then 200 else 404, RoleSet(users, id, wanted))
  }

  predicate SafeChar(c: char) { 'A' <= c <= 'Z' || 'a' <= c <= 'z' || IsDigit(c) }

  /** `^[A-Za-z0-9][A-Za-z0-9._-]{0,63}$`, matched in full */
  predicate SafeId(id: string) {
    && 0 < |id| <= 64 && SafeChar(id[0])
    && forall i :: 0 <= i < |id| ==> SafeChar(id[i]) || id[i] == '.' || id[i] == '_' || id[i] == '-'
  }

  /** Whose ownership a transfer moves: the owner's, or a bootstrap owner's who has no record. */
  function Giver(users: Users, who: Option<Principal>): Option<string> {
    if FirstOwner(users).Some? then FirstOwner(users)
    else if who.Some? && who.value.role == Owner then Some(who.value.id)
    else None
  }

  function TransferRoute(users: Users, who: Option<Principal>, to: string): (nat, Users) {
    if !Can(who, TransferOwnership) then (403, users)
    else if !SafeId(Strip(to)) then (422, users)
    else
      var owner := Giver(users, who);
      var target := Lookup(users, Strip(to));
      if owner.None? then (409, users)
      else if Strip(to) == owner.value then (422, users)
      else if target.None? then (404, users)
      else if RoleOf(users[target.value]) != Admin then (422, users)
      else (200, RoleSet(RoleSet(users, owner.value, Admin), Strip(to), Owner))
  }

  lemma {:induction false} LookupInPrefix(users: Users, n: nat, id: string)
    requires n <= |users| && Lookup(users[..n], id).Some?
    ensures Lookup(users, id) == Lookup(users[..n], id)
  {
    if n == |users| {
      assert users[..n] == users;
    } else {
      assert users[..|users| - 1][..n] == users[..n];
      LookupInPrefix(users[..|users| - 1], n, id);
    }
  }

  lemma {:induction false} OwnerInPrefix(users: Users, n: nat)
    requires n <= |users| && FirstOwner(users[..n]).Some?
    ensures FirstOwner(users) == FirstOwner(users[..n])
  {
    if n == |users| {
      assert users[..n] == users;
    } else {
      assert users[..|users| - 1][..n] == users[..n];
      OwnerInPrefix(users[..|users| - 1], n);
    }
  }

  // ---- exactly one owner ----

  /** How many records of two equally long stores differ. */
  function Differences(a: Users, b: Users): nat
    requires |a| == |b|
  {
    if a == [] then 0
    else Differences(a[..|a| - 1], b[..|b| - 1]) + if a[|a| - 1] != b[|b| - 1] then 1 else 0
  }

  lemma DifferencesNext(a: Users, b: Users, c: Users, k: nat)
    requires |a| == |b| == |c| && k < |a| && b[..k] == c[..k]
    ensures Differences(a[..k + 1], c[..k + 1]) == Differences(a[..k], b[..k]) + if a[k] != c[k] then 1 else 0
  {
    assert a[..k + 1][..k] == a[..k] && c[..k + 1][..k] == c[..k];
  }

  lemma {:induction false} NoDifferences(a: Users, b: Users)
    requires |a| == |b|
    ensures Differences(a, b) == 0 <==> a == b
  {
    if a != [] {
      NoDifferences(a[..|a| - 1], b[..|b| - 1]);
      assert a == a[..|a| - 1] + [a[|a| - 1]] && b == b[..|b| - 1] + [b[|b| - 1]];
    }
  }

  predicate UniqueIds(users: Users) { forall i, j :: 0 <= i < j < |users| ==> users[i].userId != users[j].userId }

  predicate Owns(users: Users, i: nat) { i < |users| && RoleOf(users[i]) == Owner }

  ghost predicate OneOwner(users: Users) {
    exists i: nat :: Owns(users, i) && forall j: nat :: Owns(users, j) ==> j == i
  }

  predicate HasPrimary(users: Users) { Lookup(users, PRIMARY).Some? }

  ghost predicate Sound(users: Users) { UniqueIds(users) && HasPrimary(users) && OneOwner(users) }

  lemma LookupUnique(users: Users, i: nat)
    requires UniqueIds(users) && i < |users|
    ensures Lookup(users, users[i].userId) == Some(i)
  {
    var r := Lookup(users, users[i].userId);
    assert users[i] in users;
  }

  lemma {:induction false} FirstOwnerIs(users: Users)
    ensures FirstOwner(users).None? <==> forall i: nat :: !Owns(users, i)
    ensures FirstOwner(users).Some? ==> exists i: nat :: Owns(users, i) && users[i].userId == FirstOwner(users).value
  {
    if users != [] {
      var n := |users| - 1;
      FirstOwnerIs(users[..n]);
      if FirstOwner(users[..n]).Some? {
        var i: nat :| Owns(users[..n], i) && users[..n][i].userId == FirstOwner(users[..n]).value;
        assert Owns(users, i);
      } else {
        assert forall i: nat :: i < n ==> (Owns(users, i) <==> Owns(users[..n], i));
        if RoleOf(users[n]) == Owner { assert Owns(users, n); }
      }
    }
  }

  /** Changing one record without its id, and without making or unmaking an owner. */
  lemma ReplaceKeepsSound(users: Users, i: nat, u: Record)
    requires Sound(users) && i < |users| && u.userId == users[i].userId
    requires RoleOf(u) == Owner <==> RoleOf(users[i]) == Owner
    ensures Sound(users[i := u])
  {
    var after := users[i := u];
    assert forall j: nat :: Owns(after, j) <==> Owns(users, j);
    var p := Lookup(users, PRIMARY).value;
    assert after[p] in after && after[p].userId == PRIMARY;
  }

  lemma AddKeepsSound(users: Users, u: Record)
    requires Sound(users) && Lookup(users, u.userId).None? && RoleOf(u) != Owner
    ensures Sound(users + [u])
  {
    var after := users + [u];
    assert forall j: nat :: Owns(after, j) <==> Owns(users, j);
    assert forall j :: 0 <= j < |users| ==> users[j] in users;
    var p := Lookup(users, PRIMARY).value;
    assert after[p] in after && after[p].userId == PRIMARY;
  }

  lemma RoleSetKeepsSound(users: Users, id: string, role: Role)
    requires Sound(users) && role != Owner
    requires Lookup(users, id).Some? ==> RoleOf(users[Lookup(users, id).value]) != Owner
    ensures Sound(RoleSet(users, id, role))
  {
    if Lookup(users, id).Some? {
      var i := Lookup(users, id).value;
      ReplaceKeepsSound(users, i, WithRole(users[i], role));
    }
  }

  /** The one owner is the one `owner_id` finds. */
  lemma TheOwner(users: Users) returns (o: nat)
    requires UniqueIds(users) && OneOwner(users)
    ensures Owns(users, o) && FirstOwner(users) == Some(users[o].userId) && Lookup(users, users[o].userId) == Some(o)
    ensures forall j: nat :: Owns(users, j) ==> j == o
  {
    FirstOwnerIs(users);
    o :| Owns(users, o) && forall j: nat :: Owns(users, j) ==> j == o;
    LookupUnique(users, o);
  }

  lemma TransferKeepsSound(users: Users, who: Option<Principal>, to: string)
    requires Sound(users)
    ensures Sound(TransferRoute(users, who, to).1)
  {
    if TransferRoute(users, who, to).0 == 200 {
      var o := TheOwner(users);
      var t := Lookup(users, Strip(to)).value;
      var mid := users[o := WithRole(users[o], Admin)];
      assert UniqueIds(mid) && mid[t].userId == Strip(to) && t != o;
      LookupUnique(mid, t);
      var after := mid[t := WithRole(mid[t], Owner)];
      forall j: nat ensures Owns(after, j) <==> j == t {
        assert j != t && j != o ==> (Owns(after, j) <==> Owns(users, j));
      }
      assert Owns(after, t);
      var p := Lookup(users, PRIMARY).value;
      assert after[p] in after && after[p].userId == PRIMARY;
    }
  }

  lemma MigratedKeepsSound(users: Users)
    requires Sound(users)
    ensures Sound(Migrated(users))
  {
    var after := Migrated(users);
    assert forall j: nat :: Owns(after, j) <==> Owns(users, j);
    var p := Lookup(users, PRIMARY).value;
    assert after[p] in after && after[p].userId == PRIMARY;
  }

  // ---- whole runs ----

  /** Everything that writes people records: provisioning and accepting an invite (never as
      owner), the two role routes, group sign-in, profile names, boot. */
  datatype Op =
    | Provision(id: string, name: Option<string>, role: Role, tokens: seq<string>, until: Option<string>)
    | SetRoleOf(who: Option<Principal>, id: string, wanted: string)
    | Transfer(who: Option<Principal>, to: string)
    | SignIn(person: Principal, groups: seq<string>, mapping: string)
    | Rename(id: string, newName: string)
    | BootPrimary(token: string)
    | Migrate

  predicate Allowed(op: Op) { op.Provision? ==> op.role != Owner }

  function Step(users: Users, op: Op): Users {
    match op
    case Provision(id, name, role, tokens, until) => Created(users, NewRecord(id, name, role, tokens, until))
    case SetRoleOf(who, id, role) => RoleRoute(users, who, id, role).1
    case Transfer(who, to) => TransferRoute(users, who, to).1
    case SignIn(who, groups, mapping) => GroupRoleApplied(users, who, groups, mapping)
    case Rename(id, name) => NameSet(users, id, name)
    case BootPrimary(token) => PrimaryEnsured(users, token)
    case Migrate => Migrated(users)
  }

  function Run(users: Users, ops: seq<Op>): Users {
    if ops == [] then users else Step(Run(users, ops[..|ops| - 1]), ops[|ops| - 1])
  }

  lemma SettingKeepsSound(users: Users, op: Op)
    requires Sound(users) && Allowed(op) && op.SetRoleOf?
    ensures Sound(Step(users, op))
  {
    var o := TheOwner(users);
    if Step(users, op) != users {
      assert Lookup(users, op.id).Some? ==> !Owns(users, Lookup(users, op.id).value);
      RoleSetKeepsSound(users, op.id, RoleNamed(op.wanted).value);
    }
  }

  lemma RenamingKeepsSound(users: Users, op: Op)
    requires Sound(users) && Allowed(op) && op.Rename?
    ensures Sound(Step(users, op))
  {
    if Lookup(users, op.id).Some? {
      var i := Lookup(users, op.id).value;
      ReplaceKeepsSound(users, i, users[i].(displayName := Some(op.newName)));
    } else {
      AddKeepsSound(users, NewRecord(op.id, Some(op.newName), Member, [], None));
    }
  }

  lemma StepKeepsSound(users: Users, op: Op)
    requires Sound(users) && Allowed(op)
    ensures Sound(Step(users, op))
  {
    match op
    case Provision(id, name, role, tokens, until) =>
      if Lookup(users, id).None? { AddKeepsSound(users, NewRecord(id, name, role, tokens, until)); }
    case SetRoleOf(who, id, role) =>
      SettingKeepsSound(users, op);
    case Transfer(who, to) =>
      TransferKeepsSound(users, who, to);
    case SignIn(who, groups, mapping) =>
      GroupsNeverOwn(groups, mapping);
      if Step(users, op) != users { RoleSetKeepsSound(users, who.id, RoleForGroups(groups, mapping).value); }
    case Rename(id, name) =>
      RenamingKeepsSound(users, op);
    case BootPrimary(token) =>
      var i := Lookup(users, PRIMARY).value;
      ReplaceKeepsSound(users, i, Healed(users[i], token));
    case Migrate =>
      MigratedKeepsSound(users);
  }

  /** From a store with a primary record, unique ids and one owner, every run of role writes
      keeps exactly one owner, whoever asks for what. */
  lemma {:induction false} AlwaysOneOwner(users: Users, ops: seq<Op>)
    requires Sound(users) && forall k :: 0 <= k < |ops| ==> Allowed(ops[k])
    ensures Sound(Run(users, ops))
  {
    if ops != [] {
      AlwaysOneOwner(users, ops[..|ops| - 1]);
      StepKeepsSound(Run(users, ops[..|ops| - 1]), ops[|ops| - 1]);
    }
  }

  // ---- what the primary record is for ----

  /** With one owner and unique ids, making sure of the primary person keeps exactly one
      owner exactly when the store already has a primary record. */
  lemma BootKeepsOneOwnerIff(users: Users, token: string)
    requires UniqueIds(users) && OneOwner(users)
    ensures OneOwner(PrimaryEnsured(users, token)) <==> HasPrimary(users)
  {
    if HasPrimary(users) {
      var i := Lookup(users, PRIMARY).value;
      ReplaceKeepsSound(users, i, Healed(users[i], token));
    } else {
      AddedOwner(users, NewRecord(PRIMARY, Some("Primary person"), Owner, [token], None));
    }
  }

  /** The same for a profile name: naming someone with no record makes a second owner exactly
      when that someone is the primary person. */
  lemma RenameKeepsOneOwnerIff(users: Users, id: string, name: string)
    requires UniqueIds(users) && OneOwner(users)
    ensures OneOwner(NameSet(users, id, name)) <==> id != PRIMARY || HasPrimary(users)
  {
    match Lookup(users, id)
    case Some(i) =>
      var after := users[i := users[i].(displayName := Some(name))];
      assert forall j: nat :: Owns(after, j) <==> Owns(users, j);
    case None =>
      var u := NewRecord(id, Some(name), if id == PRIMARY then Owner else Member, [], None);
      var after := users + [u];
      if id == PRIMARY {
        AddedOwner(users, u);
      } else {
        assert forall j: nat :: Owns(after, j) <==> Owns(users, j);
      }
  }

  lemma AddedOwner(users: Users, u: Record)
    requires OneOwner(users) && RoleOf(u) == Owner
    ensures !OneOwner(users + [u])
  {
    var after := users + [u];
    var o: nat :| Owns(users, o);
    assert Owns(after, o) && Owns(after, |users|);
  }

  /** The case that fails: a bootstrap owner who has no record yet hands ownership to an admin.
      There is one owner then; making sure of the primary person makes a second. */
  lemma SecondOwner(token: string)
    ensures var users := [NewRecord("ada", None, Admin, [], None)];
            var r := TransferRoute(users, Some(Principal(PRIMARY, Person, {}, Owner)), "ada");
            r.0 == 200 && UniqueIds(r.1) && OneOwner(r.1) && !OneOwner(PrimaryEnsured(r.1, token))
  {
    var ada := NewRecord("ada", None, Admin, [], None);
    var users, who := [ada], Some(Principal(PRIMARY, Person, {}, Owner));
    assert Strip("ada") == "ada" && SafeId("ada");
    assert "ada"[0] != PRIMARY[0];
    assert users[..0] == [];
    assert Lookup(users, "ada") == Some(0) && Lookup(users, PRIMARY) == None && FirstOwner(users) == None;
    var after := TransferRoute(users, who, "ada").1;
    assert after == [WithRole(ada, Owner)];
    assert after[..0] == [] && Owns(after, 0);
    assert Lookup(after, PRIMARY) == None;
    BootKeepsOneOwnerIff(after, token);
  }

  // ---- migration ----

  /** Migrating twice is migrating once, and afterwards every record says its own role. */
  lemma MigrateIdempotent(users: Users)
    ensures Migrated(Migrated(users)) == Migrated(users)
    ensures forall i :: 0 <= i < |users| ==> Migrated(users)[i].role.Has?
  {
  }

  /** Migration changes no one's authority but this: a stored member with the legacy scope
      becomes an admin. */
  lemma MigrateMeans(users: Users, i: nat)
    requires i < |users|
    ensures RoleOf(Migrated(users)[i]) == if users[i].role == Has(Member) && "admin" in users[i].scopes then Admin
                                          else RoleOf(users[i])
  {
  }

  /** The operation writes the role of the record with this id, if it writes at all. */
  predicate WritesRoleOf(users: Users, op: Op, id: string) {
    match op
    case SetRoleOf(_, who, _) => who == id
    case Transfer(who, to) => Strip(to) == id || Giver(users, who) == Some(id)
    case SignIn(who, _, _) => who.id == id
    case _ => false
  }

  /** The record with this id has this role and no legacy scope. */
  predicate Settled(users: Users, id: string, role: Role) {
    && Lookup(users, id).Some?
    && var u := users[Lookup(users, id).value]; u.role == Has(role) && "admin" !in u.scopes
  }

  lemma SetRoleSettles(users: Users, id: string, role: Role)
    requires Lookup(users, id).Some?
    ensures Settled(RoleSet(users, id, role), id, role)
  {
    LookupAfterUpdate(users, Lookup(users, id).value, WithRole(users[Lookup(users, id).value], role), id);
  }

  lemma {:induction false} LookupAfterUpdate(users: Users, i: nat, u: Record, id: string)
    requires i < |users| && u.userId == users[i].userId
    ensures Lookup(users[i := u], id) == Lookup(users, id)
  {
    var n := |users| - 1;
    if i < n {
      assert users[i := u][..n] == users[..n][i := u];
      LookupAfterUpdate(users[..n], i, u, id);
    } else {
      assert users[i := u][..n] == users[..n];
    }
  }

  lemma {:induction false} LookupMigrated(users: Users, id: string)
    ensures Lookup(Migrated(users), id) == Lookup(users, id)
  {
    if users != [] {
      var n := |users| - 1;
      assert Migrated(users)[..n] == Migrated(users[..n]);
      LookupMigrated(users[..n], id);
    }
  }

  lemma StepKeepsSettled(users: Users, op: Op, id: string, role: Role)
    requires Settled(users, id, role) && !WritesRoleOf(users, op, id)
    ensures Settled(Step(users, op), id, role)
  {
    match op
    case Migrate =>
      LookupMigrated(users, id);
    case Provision(i, name, r, tokens, until) =>
      LookupInPrefix(users + [NewRecord(i, name, r, tokens, until)], |users|, id);
      assert (users + [NewRecord(i, name, r, tokens, until)])[..|users|] == users;
    case SetRoleOf(who, i, r) =>
      if Step(users, op) != users { OtherRoleSet(users, i, RoleNamed(r).value, id); }
    case Transfer(who, to) =>
      if Step(users, op) != users {
        var mid := RoleSet(users, Giver(users, who).value, Admin);
        OtherRoleSet(users, Giver(users, who).value, Admin, id);
        OtherRoleSet(mid, Strip(to), Owner, id);
      }
    case SignIn(who, groups, mapping) =>
      if Step(users, op) != users { OtherRoleSet(users, who.id, RoleForGroups(groups, mapping).value, id); }
    case Rename(i, name) =>
      if Lookup(users, i).Some? {
        var k := Lookup(users, i).value;
        LookupAfterUpdate(users, k, users[k].(displayName := Some(name)), id);
      } else {
        var u := NewRecord(i, Some(name), if i == PRIMARY then Owner else Member, [], None);
        assert (users + [u])[..|users|] == users;
        LookupInPrefix(users + [u], |users|, id);
      }
    case BootPrimary(token) =>
      if Lookup(users, PRIMARY).Some? {
        var k := Lookup(users, PRIMARY).value;
        LookupAfterUpdate(users, k, Healed(users[k], token), id);
      } else {
        var u := NewRecord(PRIMARY, Some("Primary person"), Owner, [token], None);
        assert (users + [u])[..|users|] == users;
        LookupInPrefix(users + [u], |users|, id);
      }
  }

  lemma OtherRoleSet(users: Users, other: string, role: Role, id: string)
    requires other != id
    ensures Lookup(RoleSet(users, other, role), id) == Lookup(users, id)
    ensures Lookup(users, id).Some? ==>
              RoleSet(users, other, role)[Lookup(users, id).value] == users[Lookup(users, id).value]
  {
    if Lookup(users, other).Some? {
      var k := Lookup(users, other).value;
      LookupAfterUpdate(users, k, WithRole(users[k], role), id);
    }
  }

  /** No operation of the run writes the role of the record with this id. */
  ghost predicate LeavesRoleOf(users: Users, ops: seq<Op>, id: string) {
    forall k :: 0 <= k < |ops| ==> !WritesRoleOf(Run(users, ops[..k]), ops[k], id)
  }

  /** A role written by `set_role` stays through any number of migrations, boots, renames,
      transfers and writes to other people, whatever scopes the record carried before. */
  lemma {:induction false} WrittenRoleStays(users: Users, id: string, role: Role, ops: seq<Op>)
    requires Lookup(users, id).Some? && LeavesRoleOf(RoleSet(users, id, role), ops, id)
    ensures Settled(Run(RoleSet(users, id, role), ops), id, role)
  {
    if ops == [] {
      SetRoleSettles(users, id, role);
    } else {
      var n := |ops| - 1;
      assert forall k :: 0 <= k < n ==> ops[..n][..k] == ops[..k];
      WrittenRoleStays(users, id, role, ops[..n]);
      StepKeepsSettled(Run(RoleSet(users, id, role), ops[..n]), ops[n], id, role);
    }
  }

  /** The request is about the person with this id. */
  predicate IsAbout(op: Op, id: string) {
    match op
    case SetRoleOf(_, who, _) => who == id
    case Transfer(_, to) => Strip(to) == id
    case SignIn(who, _, _) => who.id == id
    case _ => false
  }

  lemma OtherStep(users: Users, op: Op, id: string, role: Role)
    requires Sound(users) && Settled(users, id, role) && role != Owner && !IsAbout(op, id)
    ensures Settled(Step(users, op), id, role)
  {
    var o := TheOwner(users);
    assert !WritesRoleOf(users, op, id);
    StepKeepsSettled(users, op, id, role);
  }

  lemma {:induction false} OthersKeepSettled(users: Users, id: string, role: Role, ops: seq<Op>)
    requires Sound(users) && Settled(users, id, role) && role != Owner
    requires forall k :: 0 <= k < |ops| ==> Allowed(ops[k]) && !IsAbout(ops[k], id)
    ensures Sound(Run(users, ops)) && Settled(Run(users, ops), id, role)
  {
    if ops != [] {
      var before, op := Run(users, ops[..|ops| - 1]), ops[|ops| - 1];
      OthersKeepSettled(users, id, role, ops[..|ops| - 1]);
      StepKeepsSound(before, op);
      OtherStep(before, op, id, role);
    }
  }

  /** In a store with one owner, a role other than owner stays through every run of requests that
      are not about its person: nobody else's transfer, sign-in or promotion touches it. */
  lemma OthersLeaveRole(users: Users, id: string, role: Role, ops: seq<Op>)
    requires Lookup(users, id).Some? && role != Owner && Sound(RoleSet(users, id, role))
    requires forall k :: 0 <= k < |ops| ==> Allowed(ops[k]) && !IsAbout(ops[k], id)
    ensures Settled(Run(RoleSet(users, id, role), ops), id, role)
  {
    SetRoleSettles(users, id, role);
    OthersKeepSettled(RoleSet(users, id, role), id, role, ops);
  }
}
