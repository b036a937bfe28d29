/** The `User` model's role and permission API: role tests, the three-way
    permission check (direct, through a role, temporary), the mutators of the
    user's pivot rows, and impersonation. */
module Users {
  import opened Common
  import opened Php
  import opened TemporaryPermissions
  import opened AuthStore

  // ---------------------------------------------------------------- roles

  /** Names of the roles the user holds (`user_roles` joined with `roles`). */
  function RoleNames(s: Store, u: int): set<string> {
    NamesOf(s.roles, Related(s.userRoles, u))
  }

  /** The user holds the existing role with this id. */
  predicate HoldsRoleId(s: Store, u: int, id: int) {
    id in Related(s.userRoles, u) && id in Ids(s.roles)
  }

  /** `whereIn('name', $names)->exists()` on the user's roles. */
  predicate AnyNamed(s: Store, u: int, names: seq<string>) {
    exists n :: n in names && n in RoleNames(s, u)
  }

  /** The string elements of a PHP array. */
  function StringItems(items: seq<Ref>): seq<string> {
    if |items| == 0 then []
    else (if items[0].ByName? then [items[0].name] else []) + StringItems(items[1..])
  }

  /** `hasRole`: a string holding '|' is split into alternatives, a string is a
      role name, an array is a list of alternative names, an int is a role id, a
      Role object stands for its id; anything else holds no role. */
  predicate HasRole(s: Store, u: int, roles: Arg) {
    match roles
    case Single(ByName(n)) => if '|' in n then AnyNamed(s, u, Explode('|', n)) else n in RoleNames(s, u)
    case Single(ById(i)) => HoldsRoleId(s, u, i)
    case Single(Model(k, i, _)) => k == RoleModel && HoldsRoleId(s, u, i)
    case Single(OtherValue) => false
    case Array(items) => AnyNamed(s, u, StringItems(items))
    case Collection(_) => false
  }

  /** Any string argument names a list of alternatives separated by '|'; a
      string without '|' is the one-element list. */
  lemma HasRoleByString(s: Store, u: int, n: string)
    ensures HasRole(s, u, Single(ByName(n))) <==> exists part :: part in Explode('|', n) && part in RoleNames(s, u)
  {
    if '|' !in n {
      assert Explode('|', n) == [n];
      if n in RoleNames(s, u) {
        assert n in Explode('|', n);
      }
    }
  }

  /** Role names are unique in the `roles` table. */
  predicate UniqueNames(rows: seq<Row>) {
    forall i, j :: 0 <= i < |rows| && 0 <= j < |rows| && rows[i].name == rows[j].name ==> rows[i].id == rows[j].id
  }

  /** With unique role names, testing an existing role by name or by id agrees. */
  lemma HasRoleByNameOrId(s: Store, u: int, role: Row)
    requires UniqueNames(s.roles)
    requires role in s.roles
    requires '|' !in role.name
    ensures HasRole(s, u, Single(ByName(role.name))) <==> HasRole(s, u, Single(ById(role.id)))
  {
    if role.name in RoleNames(s, u) {
      var r :| r in s.roles && r.id in Related(s.userRoles, u) && r.name == role.name;
      var i :| 0 <= i < |s.roles| && s.roles[i] == r;
      var j :| 0 <= j < |s.roles| && s.roles[j] == role;
      assert r.id == role.id;
    }
    if HoldsRoleId(s, u, role.id) {
      assert role.name in RoleNames(s, u);
    }
  }

  /** `hasAnyRole`: `hasRole` on the array of names. */
  predicate HasAnyRole(s: Store, u: int, names: seq<string>) {
    HasRole(s, u, Array(seq(|names|, i requires 0 <= i < |names| => ByName(names[i]))))
  }

  lemma {:induction false} StringItemsOfNames(names: seq<string>)
    ensures StringItems(seq(|names|, i requires 0 <= i < |names| => ByName(names[i]))) == names
  {
    if |names| > 0 {
      var items := seq(|names|, i requires 0 <= i < |names| => ByName(names[i]));
      assert items[1..] == seq(|names[1..]|, i requires 0 <= i < |names[1..]| => ByName(names[1..][i]));
      StringItemsOfNames(names[1..]);
      assert names == [names[0]] + names[1..];
    }
  }

  /** `hasAnyRole` holds exactly when one of the listed names is a role of the user. */
  lemma HasAnyRoleMeaning(s: Store, u: int, names: seq<string>)
    ensures HasAnyRole(s, u, names) <==> exists n :: n in names && n in RoleNames(s, u)
  {
    StringItemsOfNames(names);
  }

  /** What `hasAllRoles` decides: every listed name is loosely equal (`in_array`)
      to the name of one of the user's roles. */
  predicate AllRolesHeld(s: Store, u: int, names: seq<string>) {
    forall i :: 0 <= i < |names| ==> NameHeld(s, u, names[i])
  }

  /** `in_array($name, $userRoles)`. */
  predicate NameHeld(s: Store, u: int, name: string) {
    exists n :: n in RoleNames(s, u) && LooseEq(Str(name), Str(n))
  }

  /** `hasAllRoles`, checking the names one at a time. */
  method HasAllRoles(s: Store, u: int, names: seq<string>) returns (r: bool)
    ensures r == AllRolesHeld(s, u, names)
  {
    var i := 0;
    while i < |names|
      invariant 0 <= i <= |names|
      invariant AllRolesHeld(s, u, names[..i])
    {
      if !NameHeld(s, u, names[i]) {
        assert !AllRolesHeld(s, u, names);
        return false;
      }
      HeldPrefixGrows(s, u, names, i);
      i := i + 1;
    }
    assert names[..i] == names;
    return true;
  }

  /** A held prefix followed by a held name is a longer held prefix. */
  lemma HeldPrefixGrows(s: Store, u: int, names: seq<string>, i: nat)
    requires i < |names| && AllRolesHeld(s, u, names[..i]) && NameHeld(s, u, names[i])
    ensures AllRolesHeld(s, u, names[..i + 1])
  {
    var longer := names[..i + 1];
    forall j | 0 <= j < i + 1 ensures NameHeld(s, u, longer[j]) {
      if j < i {
        assert longer[j] == names[..i][j];
      }
    }
  }


  /** Holding every listed name is more than holding one of them. */
  lemma AllRolesImplyAny(s: Store, u: int, names: seq<string>)
    requires forall i :: 0 <= i < |names| ==> names[i] in RoleNames(s, u)
    ensures AllRolesHeld(s, u, names)
    ensures |names| > 0 ==> HasAnyRole(s, u, names)
  {
    forall i | 0 <= i < |names| ensures NameHeld(s, u, names[i]) {
      LooseEqSymmetric(Str(names[i]), Str(names[i]));
    }
    if |names| > 0 {
      HasAnyRoleMeaning(s, u, names);
      assert names[0] in names;
    }
  }

  /** `is_admin`, `canImpersonate`: the user holds `admin` or `super-admin`. */
  predicate IsAdmin(s: Store, u: int) {
    HasRole(s, u, Array([ByName("admin"), ByName("super-admin")]))
  }

  lemma IsAdminMeaning(s: Store, u: int)
    ensures IsAdmin(s, u) <==> "admin" in RoleNames(s, u) || "super-admin" in RoleNames(s, u)
  {
    assert StringItems([ByName("admin"), ByName("super-admin")]) == ["admin", "super-admin"];
  }

  // ---------------------------------------------------------- permissions

  /** Permission ids and names granted directly to the user (joined with `permissions`). */
  function DirectNames(s: Store, u: int): set<string> {
    NamesOf(s.permissions, Related(s.userPermissions, u))
  }

  /** `hasDirectPermission`: by name, by id, or by Permission object; anything else is false. */
  predicate HasDirectPermission(s: Store, u: int, p: Ref) {
    match p
    case ByName(n) => n in DirectNames(s, u)
    case ById(i) => i in Related(s.userPermissions, u) && i in Ids(s.permissions)
    case Model(k, i, _) => k == PermissionModel && i in Related(s.userPermissions, u) && i in Ids(s.permissions)
    case OtherValue => false
  }

  /** The roles the user holds, in table order (`$this->roles`). */
  function UserRoles(s: Store, u: int): seq<Row> {
    RowsIn(s.roles, Related(s.userRoles, u))
  }

  /** Names of the permissions a role holds. */
  function RolePermNames(s: Store, roleId: int): set<string> {
    NamesOf(s.permissions, Related(s.rolePermissions, roleId))
  }

  /** How `hasPermissionViaRole` reads its argument: an id or a name to look for;
      None for an argument it refuses. */
  function PermKey(p: Ref): Option<(Option<int>, Option<string>)> {
    match p
    case ByName(n) => Some((None, Some(n)))
    case ById(i) => Some((Some(i), None))
    case Model(k, i, _) => if k == PermissionModel then Some((Some(i), None)) else None
    case OtherValue => None
  }

  /** One role grants the permission; a zero id and a falsy name ("" or "0")
      never match, as the `$permId &&` and `$permName &&` guards decide. */
  predicate RoleGrants(s: Store, role: Row, id: Option<int>, name: Option<string>) {
    (id.Some? && id.value != 0 && id.value in Related(s.rolePermissions, role.id) && id.value in Ids(s.permissions)) ||
    (name.Some? && Truthy(name.value) && name.value in RolePermNames(s, role.id))
  }

  /** What `hasPermissionViaRole` decides. */
  predicate ViaRole(s: Store, u: int, p: Ref) {
    match PermKey(p)
    case None => false
    case Some(key) => exists role :: role in UserRoles(s, u) && RoleGrants(s, role, key.0, key.1)
  }

  /** `hasPermissionViaRole`, walking the user's roles. */
  method HasPermissionViaRole(s: Store, u: int, p: Ref) returns (r: bool)
    ensures r == ViaRole(s, u, p)
  {
    var key := PermKey(p);
    if key.None? {
      return false;
    }
    var roles := UserRoles(s, u);
    var i := 0;
    while i < |roles|
      invariant 0 <= i <= |roles|
      invariant forall j :: 0 <= j < i ==> !RoleGrants(s, roles[j], key.value.0, key.value.1)
    {
      if RoleGrants(s, roles[i], key.value.0, key.value.1) {
        return true;
      }
      i := i + 1;
    }
    return false;
  }

  /** One stored grant applies: same user and permission, not yet past its
      deadline, conditions matched. */
  predicate Grants(t: TemporaryPermission, u: int, name: string, check: map<string, Scalar>, now: int) {
    t.userId == u && t.permission == name && IsActive(t, now) && Matches(t.conditions, check)
  }

  /** What `hasTemporaryPermission` decides. */
  predicate TemporarilyGranted(s: Store, u: int, name: string, check: map<string, Scalar>, now: int) {
    exists i :: 0 <= i < |s.temporaryPermissions| && Grants(s.temporaryPermissions[i], u, name, check, now)
  }

  /** `hasTemporaryPermission`, trying the user's live grants in turn. */
  method HasTemporaryPermission(s: Store, u: int, name: string, check: map<string, Scalar>, now: int) returns (r: bool)
    ensures r == TemporarilyGranted(s, u, name, check, now)
  {
    var grants := s.temporaryPermissions;
    var i := 0;
    while i < |grants|
      invariant 0 <= i <= |grants|
      invariant forall j :: 0 <= j < i ==> !Grants(grants[j], u, name, check, now)
    {
      var t := grants[i];
      if t.userId == u && t.permission == name && IsActive(t, now) {
        var m := ConditionsMatch(t, check);
        if m {
          return true;
        }
      }
      i := i + 1;
    }
    return false;
  }

  /** `hasPermissionTo`: a direct grant, then a grant through a role, then a
      temporary grant looked up by name (an id argument never reaches it). */
  predicate HasPermissionTo(s: Store, u: int, p: Ref, check: map<string, Scalar>, now: int) {
    HasDirectPermission(s, u, p) || ViaRole(s, u, p) ||
    match p
    case ByName(n) => TemporarilyGranted(s, u, n, check, now)
    case Model(k, _, n) => k == PermissionModel && TemporarilyGranted(s, u, n, check, now)
    case _ => false
  }

  /** Removing every role, direct grant and live temporary grant of a user
      removes every permission. */
  lemma NothingHeldMeansDenied(s: Store, u: int, p: Ref, check: map<string, Scalar>, now: int)
    requires Related(s.userRoles, u) == {} && Related(s.userPermissions, u) == {}
    requires forall i :: 0 <= i < |s.temporaryPermissions| ==> s.temporaryPermissions[i].userId != u
    ensures !HasPermissionTo(s, u, p, check, now)
  {
  }

  /** The second argument of `can`: an array of conditions, or anything else
      (a model instance, say), which is replaced by no conditions. */
  datatype Arguments = ArrayArgs(conditions: map<string, Scalar>) | OtherArgs

  /** `can` with a string ability: `hasPermissionTo` on the ability's name. */
  predicate Can(s: Store, u: int, ability: string, args: Arguments, now: int) {
    HasPermissionTo(s, u, ByName(ability), if args.ArrayArgs? then args.conditions else map[], now)
  }

  /** `can('update', $post)` ignores the post: it asks only whether a permission
      literally named by the ability is held, never a policy. */
  lemma CanIgnoresModelArgument(s: Store, u: int, ability: string, now: int)
    ensures Can(s, u, ability, OtherArgs, now) == Can(s, u, ability, ArrayArgs(map[]), now)
    ensures Can(s, u, ability, OtherArgs, now) <==> HasPermissionTo(s, u, ByName(ability), map[], now)
  {
  }

  /** The permission names collected from a list of roles. */
  function NamesViaRoles(s: Store, roles: seq<Row>): set<string> {
    if |roles| == 0 then {}
    else NamesViaRoles(s, roles[..|roles| - 1]) + RolePermNames(s, roles[|roles| - 1].id)
  }

  lemma {:induction false} NamesViaRolesMembers(s: Store, roles: seq<Row>, n: string)
    ensures n in NamesViaRoles(s, roles) <==> exists role :: role in roles && n in RolePermNames(s, role.id)
  {
    if |roles| > 0 {
      var init := roles[..|roles| - 1];
      NamesViaRolesMembers(s, init, n);
      assert roles == init + [roles[|roles| - 1]];
      if n in NamesViaRoles(s, roles) && n !in NamesViaRoles(s, init) {
        assert roles[|roles| - 1] in roles;
      }
    }
  }

  /** What `getAllPermissions` returns, as a set of names. */
  function AllPermissionNames(s: Store, u: int): set<string> {
    DirectNames(s, u) + NamesViaRoles(s, UserRoles(s, u))
  }

  /** `getAllPermissions`: the direct names, then each role's names, merged. */
  method GetAllPermissions(s: Store, u: int) returns (names: set<string>)
    ensures names == AllPermissionNames(s, u)
  {
    var direct := DirectNames(s, u);
    var viaRoles: set<string> := {};
    var roles := UserRoles(s, u);
    var i := 0;
    while i < |roles|
      invariant 0 <= i <= |roles|
      invariant viaRoles == NamesViaRoles(s, roles[..i])
    {
      ghost var prefix := roles[..i + 1];
      assert prefix[..i] == roles[..i] && prefix[i] == roles[i];
      assert NamesViaRoles(s, prefix) == NamesViaRoles(s, roles[..i]) + RolePermNames(s, roles[i].id);
      viaRoles := viaRoles + RolePermNames(s, roles[i].id);
      i := i + 1;
    }
    assert roles[..|roles|] == roles;
    names := direct + viaRoles;
  }

  /** The listing and the check agree on every truthy name: a name appears in
      `getAllPermissions` exactly when it is held directly or through a role. */
  lemma AllPermissionsAgreeWithCheck(s: Store, u: int, n: string)
    requires Truthy(n)
    ensures n in AllPermissionNames(s, u) <==> HasDirectPermission(s, u, ByName(n)) || ViaRole(s, u, ByName(n))
  {
    NamesViaRolesMembers(s, UserRoles(s, u), n);
  }

  /** A permission named "0" held only through a role is listed by
      `getAllPermissions` yet refused by `hasPermissionTo`. */
  lemma ZeroNamedPermissionViaRoleIsRefused(s: Store, u: int, role: Row, check: map<string, Scalar>, now: int)
    requires role in UserRoles(s, u) && "0" in RolePermNames(s, role.id)
    requires "0" !in DirectNames(s, u)
    requires forall i :: 0 <= i < |s.temporaryPermissions| ==> s.temporaryPermissions[i].userId != u
    ensures "0" in AllPermissionNames(s, u)
    ensures !HasPermissionTo(s, u, ByName("0"), check, now)
  {
    NamesViaRolesMembers(s, UserRoles(s, u), "0");
  }

  // ------------------------------------------------------------- mutators

  /** `assignRole`: attach the resolved role ids; nothing happens when none resolve. */
  method AssignRole(db: AuthDb, u: int, roles: Arg) returns (rejected: Option<int>)
    modifies db`userRoles
    ensures var ids := ResolveAll(RoleModel, old(db.roles), Items(roles));
      var r := if ids == [] then (old(db.userRoles), None) else AttachChecked(old(db.userRoles), u, ids, Ids(old(db.roles)));
      db.State() == old(db.State()).(userRoles := r.0) && rejected == r.1
  {
    var ids := CollectIds(RoleModel, db.roles, roles);
    rejected := None;
    if ids != [] {
      var r := AttachChecked(db.userRoles, u, ids, Ids(db.roles));
      db.userRoles, rejected := r.0, r.1;
    }
  }

  /** `removeRole`: detach the resolved role ids. */
  method RemoveRole(db: AuthDb, u: int, roles: Arg)
    modifies db`userRoles
    ensures db.State() == old(db.State()).(userRoles :=
      var ids := ResolveAll(RoleModel, old(db.roles), Items(roles));
      if ids == [] then old(db.userRoles) else Detach(old(db.userRoles), u, ids))
  {
    var ids := CollectIds(RoleModel, db.roles, roles);
    if ids != [] {
      db.userRoles := Detach(db.userRoles, u, ids);
    }
  }

  /** `syncRoles`: the user's roles become exactly the resolved ids, even when
      none resolve. */
  method SyncRoles(db: AuthDb, u: int, roles: Arg) returns (rejected: Option<int>)
    modifies db`userRoles
    ensures var r := SyncChecked(old(db.userRoles), u, ResolveAll(RoleModel, old(db.roles), Items(roles)), Ids(old(db.roles)));
      db.State() == old(db.State()).(userRoles := r.0) && rejected == r.1
  {
    var ids := CollectIds(RoleModel, db.roles, roles);
    var r := SyncChecked(db.userRoles, u, ids, Ids(db.roles));
    db.userRoles, rejected := r.0, r.1;
  }

  /** `givePermissionTo` on a user: attach the resolved permission ids. */
  method GivePermissionTo(db: AuthDb, u: int, permissions: Arg) returns (rejected: Option<int>)
    modifies db`userPermissions
    ensures var ids := ResolveAll(PermissionModel, old(db.permissions), Items(permissions));
      var r := if ids == [] then (old(db.userPermissions), None)
               else AttachChecked(old(db.userPermissions), u, ids, Ids(old(db.permissions)));
      db.State() == old(db.State()).(userPermissions := r.0) && rejected == r.1
  {
    var ids := CollectIds(PermissionModel, db.permissions, permissions);
    rejected := None;
    if ids != [] {
      var r := AttachChecked(db.userPermissions, u, ids, Ids(db.permissions));
      db.userPermissions, rejected := r.0, r.1;
    }
  }

  /** `revokePermissionTo` on a user: detach the resolved permission ids. */
  method RevokePermissionTo(db: AuthDb, u: int, permissions: Arg)
    modifies db`userPermissions
    ensures db.State() == old(db.State()).(userPermissions :=
      var ids := ResolveAll(PermissionModel, old(db.permissions), Items(permissions));
      if ids == [] then old(db.userPermissions) else Detach(old(db.userPermissions), u, ids))
  {
    var ids := CollectIds(PermissionModel, db.permissions, permissions);
    if ids != [] {
      db.userPermissions := Detach(db.userPermissions, u, ids);
    }
  }

  /** `syncPermissions` on a user: the direct grants become exactly the resolved ids. */
  method SyncPermissions(db: AuthDb, u: int, permissions: Arg) returns (rejected: Option<int>)
    modifies db`userPermissions
    ensures var r := SyncChecked(old(db.userPermissions), u, ResolveAll(PermissionModel, old(db.permissions), Items(permissions)),
                                 Ids(old(db.permissions)));
      db.State() == old(db.State()).(userPermissions := r.0) && rejected == r.1
  {
    var ids := CollectIds(PermissionModel, db.permissions, permissions);
    var r := SyncChecked(db.userPermissions, u, ids, Ids(db.permissions));
    db.userPermissions, rejected := r.0, r.1;
  }

  /** Assigning a role by name then testing it by name succeeds, and leaves
      every other user's roles as they were. */
  lemma AssignedRoleIsHeld(s: Store, u: int, role: Row, other: int)
    requires FindByName(s.roles, role.name) == Some(role)
    requires '|' !in role.name
    requires other != u
    ensures HasRole(s.(userRoles := Attach(s.userRoles, u, ResolveAll(RoleModel, s.roles, [ByName(role.name)]))), u, Single(ByName(role.name)))
    ensures RoleNames(s.(userRoles := Attach(s.userRoles, u, ResolveAll(RoleModel, s.roles, [ByName(role.name)]))), other) == RoleNames(s, other)
  {
    var ids := ResolveAll(RoleModel, s.roles, [ByName(role.name)]);
    ResolveOne(RoleModel, s.roles, ByName(role.name));
    var t := s.(userRoles := Attach(s.userRoles, u, ids));
    AttachEffect(s.userRoles, u, ids, u);
    AttachEffect(s.userRoles, u, ids, other);
    assert role.id in Related(t.userRoles, u);
    assert role.name in RoleNames(t, u);
  }

  /** Syncing a user's roles with an Eloquent collection removes all of them. */
  lemma SyncRolesWithCollectionClears(s: Store, u: int, models: seq<Ref>)
    ensures RoleNames(s.(userRoles := Sync(s.userRoles, u, ResolveAll(RoleModel, s.roles, Items(Collection(models))))), u) == {}
  {
    CollectionResolvesToNothing(RoleModel, s.roles, models);
    SyncEffect(s.userRoles, u, [], u);
  }

  /** The optional fields of `grantTemporaryPermission`'s `$options`. */
  datatype GrantOptions = GrantOptions(
    expiresAt: Option<int>, conditions: Option<map<string, Scalar>>,
    grantedBy: Option<string>, reason: Option<string>)

  /** One day, the default lifetime of a temporary grant. */
  const Day: int := 86400

  /** The record `grantTemporaryPermission` creates. */
  function NewGrant(u: int, permission: string, options: GrantOptions, now: int): (t: TemporaryPermission)
    ensures t.userId == u && t.permission == permission
    ensures options.expiresAt.None? ==> t.expiresAt == now + Day
    ensures options.conditions.None? ==> t.conditions == map[]
  {
    TemporaryPermission(u, permission, options.conditions.GetOr(map[]),
                        options.expiresAt.GetOr(now + Day), options.grantedBy, options.reason)
  }

  /** `grantTemporaryPermission`: store a new grant for the user. */
  method GrantTemporaryPermission(db: AuthDb, u: int, permission: string, options: GrantOptions, now: int)
    returns (t: TemporaryPermission)
    modifies db`temporaryPermissions
    ensures t == NewGrant(u, permission, options, now)
    ensures db.State() == old(db.State()).(temporaryPermissions := old(db.temporaryPermissions) + [t])
  {
    t := NewGrant(u, permission, options, now);
    db.temporaryPermissions := db.temporaryPermissions + [t];
  }

  /** A grant stored with the default options is usable until just before its
      one-day deadline, in every context. */
  lemma DefaultGrantUsableForADay(s: Store, u: int, permission: string, now: int, later: int, check: map<string, Scalar>)
    requires now <= later < now + Day
    ensures var t := NewGrant(u, permission, GrantOptions(None, None, None, None), now);
            TemporarilyGranted(s.(temporaryPermissions := s.temporaryPermissions + [t]), u, permission, check, later)
  {
    var t := NewGrant(u, permission, GrantOptions(None, None, None, None), now);
    var grants := s.temporaryPermissions + [t];
    assert grants[|grants| - 1] == t;
    assert Grants(t, u, permission, check, later);
  }

  // -------------------------------------------------------- impersonation

  /** `impersonate`'s guard: the actor holds an admin role, the target does not. */
  predicate ImpersonationAllowed(s: Store, actor: int, target: int) {
    IsAdmin(s, actor) && !IsAdmin(s, target)
  }

  /** Nobody can impersonate themself, and an admin is never impersonated. */
  lemma ImpersonationNeedsDistinctNonAdmin(s: Store, actor: int, target: int)
    ensures ImpersonationAllowed(s, actor, target) ==> actor != target
    ensures IsAdmin(s, target) ==> !ImpersonationAllowed(s, actor, target)
  {
  }

  /** The part of the session and auth state impersonation touches. */
  datatype SessionState = SessionState(authUser: int, impersonatedBy: Option<int>, impersonatedAt: Option<int>)

  class Session {
    var authUser: int
    var impersonatedBy: Option<int>
    var impersonatedAt: Option<int>

    function Get(): SessionState
      reads this
    {
      SessionState(authUser, impersonatedBy, impersonatedAt)
    }

    /** A session logged in as `user`, not impersonating. */
    constructor (user: int)
      ensures Get() == SessionState(user, None, None)
    {
      authUser := user;
      impersonatedBy := None;
      impersonatedAt := None;
    }
  }

  /** The session after a successful `impersonate`. */
  function Impersonated(actor: int, target: int, now: int): SessionState {
    SessionState(target, Some(actor), Some(now))
  }

  /** `impersonate`: when allowed, remember who is acting and switch the
      authenticated user to the target. */
  method Impersonate(s: Store, session: Session, actor: int, target: int, now: int) returns (ok: bool)
    modifies session
    ensures ok == ImpersonationAllowed(s, actor, target)
    ensures session.Get() == if ok then Impersonated(actor, target, now) else old(session.Get())
  {
    if !IsAdmin(s, actor) {
      return false;
    }
    if IsAdmin(s, target) {
      return false;
    }
    session.impersonatedBy := Some(actor);
    session.impersonatedAt := Some(now);
    session.authUser := target;
    return true;
  }

  /** Why leaving impersonation can fail: `findOrFail` found no such user. */
  datatype LeaveError = ImpersonatorNotFound(id: int)

  /** The outcome of `leaveImpersonation` from a session state: false when not
      impersonating, an error when the impersonator no longer exists, otherwise
      true with the impersonator logged back in and the markers forgotten. */
  function AfterLeave(s: Store, st: SessionState): (r: (Result<bool, LeaveError>, SessionState))
    ensures st.impersonatedBy.None? ==> r == (Ok(false), st)
    ensures st.impersonatedBy.Some? ==>
      (r.0.Ok? <==> st.impersonatedBy.value in s.users) &&
      (r.0.Ok? ==> r.0.value && r.1.authUser == st.impersonatedBy.value && r.1.impersonatedBy.None? && r.1.impersonatedAt.None?) &&
      (r.0.Err? ==> r.1 == st)
  {
    match st.impersonatedBy
    case None => (Ok(false), st)
    case Some(i) =>
      if i in s.users then (Ok(true), SessionState(i, None, None))
      else (Err(ImpersonatorNotFound(i)), st)
  }

  method LeaveImpersonation(s: Store, session: Session) returns (r: Result<bool, LeaveError>)
    modifies session
    ensures (r, session.Get()) == AfterLeave(s, old(session.Get()))
  {
    if session.impersonatedBy.None? {
      return Ok(false);
    }
    var i := session.impersonatedBy.value;
    if i !in s.users {
      return Err(ImpersonatorNotFound(i));
    }
    session.authUser := i;
    session.impersonatedBy := None;
    session.impersonatedAt := None;
    return Ok(true);
  }

  /** Leaving right after impersonating logs the original user back in with no
      impersonation markers left, provided that user still exists. */
  lemma LeaveUndoesImpersonate(s: Store, actor: int, target: int, now: int)
    requires actor in s.users
    ensures AfterLeave(s, Impersonated(actor, target, now)) == (Ok(true), SessionState(actor, None, None))
    ensures AfterLeave(s, SessionState(actor, None, None)).0 == Ok(false)
  {
  }
}
