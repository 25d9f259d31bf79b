/** Roles as bundles of permissions (`roles.py`), and roles granted by sign-in groups. */
module Roles {
  import opened PyText

  /** Highest privilege first. */
  datatype Role = Owner | Admin | Member | Supervised | Guest
  {
    function Rank(): nat {
      match this case Owner => 0 case Admin => 1 case Member => 2 case Supervised => 3 case Guest => 4
    }
  }

  datatype Permission =
    | OwnSpace | SeeShared | Approve | ManagePeople | ManageRooms | EstateSecrets | TransferOwnership

  datatype Kind = Person | Agent | Service

  datatype Principal = Principal(id: string, kind: Kind, scopes: set<string>, role: Role)

  function Bundle(role: Role): set<Permission> {
    match role
    case Owner => {OwnSpace, SeeShared, Approve, ManagePeople, ManageRooms, EstateSecrets, TransferOwnership}
    case Admin => {OwnSpace, SeeShared, Approve, ManagePeople, ManageRooms, EstateSecrets}
    case Member => {OwnSpace, SeeShared}
    case Supervised => {OwnSpace, SeeShared}
    case Guest => {SeeShared}
  }

  /** The token scopes that may carry a permission for an agent. */
  function CarryingScopes(p: Permission): set<string> {
    match p
    case OwnSpace => {"write", "journal"}
    case SeeShared => {"read"}
    case _ => {}
  }

  function EffectiveRole(who: Principal): Role {
    if who.role != Member then who.role
    else if who.kind == Person && "admin" in who.scopes then Admin
    else Member
  }

  /** The one authorization question; nobody is signed in when `who` is `None`. */
  predicate Can(who: Option<Principal>, p: Permission) {
    && who.Some?
    && (who.value.kind == Agent ==> CarryingScopes(p) * who.value.scopes != {})
    && p in Bundle(EffectiveRole(who.value))
  }

  /** An agent can do nothing its owner cannot, and never a human act, whatever its scopes. */
  lemma AgentIsLesser(agent: Principal, owner: Principal, p: Permission)
    requires agent.kind == Agent && owner.kind == Person && owner.role == agent.role
    requires Can(Some(agent), p)
    ensures Can(Some(owner), p) && p in {OwnSpace, SeeShared}
  {
  }

  /** The caller acts as an owner or an admin: by role, or as a member person who still carries
      the legacy admin scope. No agent does, whatever its role. */
  predicate Manages(who: Principal) {
    && who.kind != Agent
    && (|| who.role == Owner || who.role == Admin
        || (who.role == Member && who.kind == Person && "admin" in who.scopes))
  }

  /** Who may do what, permission by permission. */
  lemma WhoCan(who: Principal)
    ensures Can(Some(who), TransferOwnership) <==> who.role == Owner && who.kind != Agent
    ensures forall p :: p in {Approve, ManagePeople, ManageRooms, EstateSecrets} ==>
              (Can(Some(who), p) <==> Manages(who))
    ensures Can(Some(who), OwnSpace) <==>
            who.role != Guest && (who.kind == Agent ==> "write" in who.scopes || "journal" in who.scopes)
    ensures Can(Some(who), SeeShared) <==> (who.kind == Agent ==> "read" in who.scopes)
    ensures forall p :: !Can(None, p)
  {
    var own := {"write", "journal"} * who.scopes;
    assert own != {} ==> exists s :: s in own;
    if "write" in who.scopes { assert "write" in own; }
    if "journal" in who.scopes { assert "journal" in own; }
    var read := {"read"} * who.scopes;
    if "read" in who.scopes { assert "read" in read; }
  }

  // ---- roles from groups ----

  function RoleNamed(name: string): Option<Role> {
    if name == "owner" then Some(Owner)
    else if name == "admin" then Some(Admin)
    else if name == "member" then Some(Member)
    else if name == "supervised" then Some(Supervised)
    else if name == "guest" then Some(Guest)
    else None
  }

  /** One `group=role` entry: nothing unless the group has a name and the role is one a group may give. */
  function EntryRole(entry: string): Option<(string, Role)> {
    match Find(entry, "=", 0)
    case None => None
    case Some(i) =>
      var group, role := Strip(entry[..i]), RoleNamed(Strip(entry[i + 1..]));
      if group == "" || role.None? || role.value == Owner then None else Some((group, role.value))
  }

  type Grants = map<string, Role>

  function GrantsOf(read: string -> Option<(string, Role)>, entries: seq<string>): Grants {
    if entries == [] then map[]
    else
      var before, entry := GrantsOf(read, entries[..|entries| - 1]), read(entries[|entries| - 1]);
      if entry.Some? then before[entry.value.0 := entry.value.1] else before
  }

  /** The highest of the roles granted to the groups. */
  function Best(groups: seq<string>, grants: Grants): Option<Role> {
    if groups == [] then None
    else
      var before, group := Best(groups[..|groups| - 1], grants), groups[|groups| - 1];
      if group in grants && (before.None? || grants[group].Rank() < before.value.Rank())
      then Some(grants[group]) else before
  }

  function RoleForGroups(groups: seq<string>, mapping: string): Option<Role> {
    if groups == [] || mapping == "" then None
    else Best(groups, GrantsOf(EntryRole, Split("", mapping, Literal(","))))
  }

  method ReadGrants(read: string -> Option<(string, Role)>, entries: seq<string>) returns (grants: Grants)
    ensures grants == GrantsOf(read, entries)
  {
    grants := map[];
    for i := 0 to |entries|
      invariant grants == GrantsOf(read, entries[..i])
    {
      assert entries[..i + 1][..i] == entries[..i];
      var entry := read(entries[i]);
      if entry.None? {
        continue;
      }
      grants := grants[entry.value.0 := entry.value.1];
    }
    assert entries[..|entries|] == entries;
  }

  method FindRoleForGroups(groups: seq<string>, mapping: string) returns (best: Option<Role>)
    ensures best == RoleForGroups(groups, mapping)
  {
    if groups == [] || mapping == "" {
      return None;
    }
    var grants := ReadGrants(EntryRole, Split("", mapping, Literal(",")));
    best := None;
    for i := 0 to |groups|
      invariant best == Best(groups[..i], grants)
    {
      assert groups[..i + 1][..i] == groups[..i];
      if groups[i] !in grants {
        continue;
      }
      var role := grants[groups[i]];
      if best.None? || role.Rank() < best.value.Rank() {
        best := Some(role);
      }
    }
    assert groups[..|groups|] == groups;
  }

  /** Entry k is the last one that grants something to the group, and grants it this role. */
  predicate LastGrant(read: string -> Option<(string, Role)>, entries: seq<string>, k: nat, group: string, role: Role)
    requires k < |entries|
  {
    && read(entries[k]) == Some((group, role))
    && forall j :: k < j < |entries| && read(entries[j]).Some? ==> read(entries[j]).value.0 != group
  }

  /** A group has the role of the last entry that grants it one. */
  lemma {:induction false} LastGrantCounts(read: string -> Option<(string, Role)>, entries: seq<string>,
                                           group: string, role: Role)
    ensures group in GrantsOf(read, entries) && GrantsOf(read, entries)[group] == role <==>
            exists k: nat :: k < |entries| && LastGrant(read, entries, k, group, role)
  {
    if entries != [] {
      var n := |entries| - 1;
      LastGrantCounts(read, entries[..n], group, role);
      if read(entries[n]).Some? && read(entries[n]).value.0 == group {
        assert LastGrant(read, entries, n, group, read(entries[n]).value.1);
      } else {
        forall k: nat | k < n
          ensures LastGrant(read, entries, k, group, role) <==> LastGrant(read, entries[..n], k, group, role)
        {
          assert forall j :: k < j < n ==> entries[..n][j] == entries[j];
        }
      }
    }
  }

  lemma {:induction false} GrantsNeverOwner(read: string -> Option<(string, Role)>, entries: seq<string>)
    requires forall e :: read(e).Some? ==> read(e).value.1 != Owner
    ensures forall g :: g in GrantsOf(read, entries) ==> GrantsOf(read, entries)[g] != Owner
  {
    if entries != [] { GrantsNeverOwner(read, entries[..|entries| - 1]); }
  }

  lemma {:induction false} BestIsHighest(groups: seq<string>, grants: Grants)
    ensures Best(groups, grants).None? <==> forall g :: g in groups ==> g !in grants
    ensures Best(groups, grants).Some? ==>
              && (exists g :: g in groups && g in grants && grants[g] == Best(groups, grants).value)
              && (forall g :: g in groups && g in grants ==> Best(groups, grants).value.Rank() <= grants[g].Rank())
  {
    if groups != [] {
      var n := |groups| - 1;
      BestIsHighest(groups[..n], grants);
      assert groups == groups[..n] + [groups[n]];
      assert forall g :: g in groups[..n] ==> g in groups;
      assert groups[n] in groups;
    }
  }

  /** A group never makes an owner; what it does give is the highest role its groups are granted. */
  lemma GroupsNeverOwn(groups: seq<string>, mapping: string)
    ensures RoleForGroups(groups, mapping) != Some(Owner)
  {
    if groups != [] && mapping != "" {
      var entries := Split("", mapping, Literal(","));
      GrantsNeverOwner(EntryRole, entries);
      BestIsHighest(groups, GrantsOf(EntryRole, entries));
    }
  }

  // ---- what a mapping text means ----

  predicate IsNamed(role: Role, name: string) {
    match role
    case Owner => name == "owner"
    case Admin => name == "admin"
    case Member => name == "member"
    case Supervised => name == "supervised"
    case Guest => name == "guest"
  }

  /** The entry is `group=role`, with white space around either, for a role other than owner. */
  ghost predicate Says(entry: string, group: string, role: Role) {
    exists a, b :: entry == a + "=" + b && '=' !in a && Strip(a) == group && group != ""
                   && IsNamed(role, Strip(b)) && role != Owner
  }

  lemma NamedIff(name: string, role: Role)
    ensures RoleNamed(name) == Some(role) <==> IsNamed(role, name)
  {
  }

  lemma FirstEquals(a: string, b: string)
    requires '=' !in a
    ensures Find(a + "=" + b, "=", 0) == Some(|a|)
  {
    var entry := a + "=" + b;
    FindFirst(entry, "=", 0);
    assert OccursAt(entry, "=", |a|);
    forall j: nat | j < |a| ensures !OccursAt(entry, "=", j) {
      assert entry[j + 0] == a[j] != "="[0];
    }
  }

  lemma EqualsParts(entry: string)
    requires Find(entry, "=", 0).Some?
    ensures var i := Find(entry, "=", 0).value; entry == entry[..i] + "=" + entry[i + 1..] && '=' !in entry[..i]
  {
    FindFirst(entry, "=", 0);
    var i := Find(entry, "=", 0).value;
    assert entry[i + 0] == "="[0];
    forall j | 0 <= j < i ensures entry[j] != '=' {
      if entry[j] == '=' { CharOccurs(entry, "=", j); }
    }
  }

  /** An entry grants exactly what it says. */
  lemma EntryRoleIff(entry: string, group: string, role: Role)
    ensures EntryRole(entry) == Some((group, role)) <==> Says(entry, group, role)
  {
    if Says(entry, group, role) {
      var a, b :| entry == a + "=" + b && '=' !in a && Strip(a) == group && group != ""
                  && IsNamed(role, Strip(b)) && role != Owner;
      FirstEquals(a, b);
      assert entry[..|a|] == a && entry[|a| + 1..] == b;
      NamedIff(Strip(b), role);
    }
    if EntryRole(entry) == Some((group, role)) {
      EqualsParts(entry);
      var i := Find(entry, "=", 0).value;
      NamedIff(Strip(entry[i + 1..]), role);
    }
  }

  type Saying = (string, string, Role) -> bool

  ghost function Sayings(): Saying { (entry, group, role) => Says(entry, group, role) }

  /** The group has the role by the entries: the last that says anything of the group says so. */
  ghost predicate LastSays(says: Saying, entries: seq<string>, group: string, role: Role) {
    exists k :: 0 <= k < |entries| && says(entries[k], group, role)
                && forall l, other :: k < l < |entries| ==> !says(entries[l], group, other)
  }

  ghost predicate RoleBy(entries: seq<string>, group: string, role: Role) {
    LastSays(Sayings(), entries, group, role)
  }

  predicate Above(a: Role, b: Role) {
    match b
    case Owner => false
    case Admin => a == Owner
    case Member => a == Owner || a == Admin
    case Supervised => a != Supervised && a != Guest
    case Guest => a != Guest
  }

  lemma LastSaysIff(read: string -> Option<(string, Role)>, says: Saying, entries: seq<string>,
                    group: string, role: Role)
    requires forall e, g, r :: read(e) == Some((g, r)) <==> says(e, g, r)
    ensures LastSays(says, entries, group, role) <==>
            exists k: nat :: k < |entries| && LastGrant(read, entries, k, group, role)
  {
    if LastSays(says, entries, group, role) {
      var k :| 0 <= k < |entries| && says(entries[k], group, role)
               && forall l, other :: k < l < |entries| ==> !says(entries[l], group, other);
      forall j | k < j < |entries| && read(entries[j]).Some? ensures read(entries[j]).value.0 != group {
        assert !says(entries[j], group, read(entries[j]).value.1);
      }
      assert LastGrant(read, entries, k, group, role);
    }
    if k: nat :| k < |entries| && LastGrant(read, entries, k, group, role) {
      forall l, other | k < l < |entries| ensures !says(entries[l], group, other) {
        assert read(entries[l]) != Some((group, other));
      }
    }
  }

  lemma RoleByIff(entries: seq<string>, group: string, role: Role)
    ensures RoleBy(entries, group, role) <==>
            var grants := GrantsOf(EntryRole, entries); group in grants && grants[group] == role
  {
    LastGrantCounts(EntryRole, entries, group, role);
    forall e, g, r ensures EntryRole(e) == Some((g, r)) <==> Sayings()(e, g, r) { EntryRoleIff(e, g, r); }
    LastSaysIff(EntryRole, Sayings(), entries, group, role);
  }

  /** One of the groups has the role by the entries, and none has a higher one. */
  ghost predicate HighestRole(groups: seq<string>, entries: seq<string>, role: Role) {
    && (exists g :: g in groups && RoleBy(entries, g, role))
    && (forall g, r :: g in groups && RoleBy(entries, g, r) ==> !Above(r, role))
  }

  ghost predicate NoRole(groups: seq<string>, entries: seq<string>) {
    forall g, r :: g in groups ==> !RoleBy(entries, g, r)
  }

  /** The role of a list of groups under a mapping of comma-separated entries is the highest one a
      group has by them; there is none when no group has any. */
  lemma RoleForGroupsMeans(groups: seq<string>, entries: seq<string>)
    requires entries != [] && forall i :: 0 <= i < |entries| ==> ',' !in entries[i]
    ensures match RoleForGroups(groups, Join(",", entries))
            case None => NoRole(groups, entries)
            case Some(role) => HighestRole(groups, entries, role)
  {
    SplitJoined(",", entries);
    BestMeans(groups, entries);
    if Join(",", entries) == "" { JoinedToNothing(groups, entries); }
  }

  lemma BestMeans(groups: seq<string>, entries: seq<string>)
    ensures match Best(groups, GrantsOf(EntryRole, entries))
            case None => NoRole(groups, entries)
            case Some(role) => HighestRole(groups, entries, role)
  {
    var grants := GrantsOf(EntryRole, entries);
    forall g, r ensures RoleBy(entries, g, r) <==> g in grants && grants[g] == r { RoleByIff(entries, g, r); }
    BestIsHighest(groups, grants);
  }

  lemma NoRoleNoHighest(groups: seq<string>, entries: seq<string>, role: Role)
    ensures NoRole(groups, entries) ==> !HighestRole(groups, entries, role)
  {
  }

  lemma JoinedToNothing(groups: seq<string>, entries: seq<string>)
    requires entries != [] && Join(",", entries) == ""
    ensures NoRole(groups, entries)
  {
    assert entries == [entries[0]];
    forall g, r ensures !Says("", g, r) {
    }
  }
}
