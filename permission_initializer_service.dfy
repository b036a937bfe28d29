/** The group-based initializer: creates every grouped permission, the
    default roles with their groups' permissions, gives the super-admin role
    every permission and makes user 1 a super administrator when nobody is. */
module PermissionInitializerService {
  import opened Common
  import opened AuthStore
  import Users
  import Roles
  import PermissionGroupService
  import opened PermissionInitializer

  /** The names `getPermissionsByGroups` looks up for the given groups. */
  function GroupNames(groups: seq<string>): set<string> {
    set n | n in PermissionGroupService.GetPermissionNamesByGroups(groups)
  }

  /** The roles `createDefaultRoles` makes: no description, and admin and
      editor get the permissions of their groups. */
  const DefaultRoleDefs: seq<RoleDef> := [
    RoleDef("super-admin", "超级管理员", None, None),
    RoleDef("admin", "管理员", None, Some(GroupNames(["content", "users", "admin"]))),
    RoleDef("editor", "编辑", None, Some(GroupNames(["content"]))),
    RoleDef("author", "作者", None, Some({"create_post", "edit_post", "delete_post", "publish_post"})),
    RoleDef("subscriber", "订阅者", None, None)]

  /** `createDefaultRoles`, with each permission query handed to
      `syncPermissions` in the given form (as written, the collection). */
  function DefaultRoles(s: Store, form: Form): Store {
    RunSteps(s, DefaultRoleDefs, form, 0)
  }

  /** `createRoleIfNotExists`: look the name up, create it with
      `display_name ?? name` when missing (`guard_name` is not fillable). */
  method CreateRoleIfNotExists(db: AuthDb, name: string, displayName: Option<string>) returns (role: Row)
    modifies db`roles, db`nextRoleId
    ensures (db.roles, db.nextRoleId, role) == FirstOrCreate(old(db.roles), old(db.nextRoleId), name, Some(displayName.GetOr(name)), None)
  {
    var found := FindByName(db.roles, name);
    if found.Some? {
      role := found.value;
    } else {
      role := Row(db.nextRoleId, name, Some(displayName.GetOr(name)), None);
      db.roles := db.roles + [role];
      db.nextRoleId := db.nextRoleId + 1;
    }
  }

  /** A created role has its own name, and an existing one is returned as it is. */
  lemma CreateRoleIfNotExistsLaws(rows: seq<Row>, nextId: int, name: string, displayName: Option<string>)
    requires TableValid(rows, nextId)
    ensures var (rows', nextId', role) := FirstOrCreate(rows, nextId, name, Some(displayName.GetOr(name)), None);
      TableValid(rows', nextId') && role.name == name && FindByName(rows', name) == Some(role) &&
      (FindByName(rows, name).None? ==> role.displayName == Some(displayName.GetOr(name)) && role.id == nextId)
  {
    var (rows', nextId', role) := FirstOrCreate(rows, nextId, name, Some(displayName.GetOr(name)), None);
    FirstOrCreateLaws(rows, nextId, name, Some(displayName.GetOr(name)), None);
    FindUnique(rows', nextId', role);
  }

  /** One default role, handing the queried permissions over as an array. */
  method CreateDefaultRole(db: AuthDb, name: string, displayName: string, grant: Option<set<string>>)
    modifies db`roles, db`nextRoleId, db`rolePermissions
    ensures db.State() == RoleStep(old(db.State()), RoleDef(name, displayName, None, grant), AsArray)
  {
    var role := CreateRoleIfNotExists(db, name, Some(displayName));
    if grant.Some? {
      QueriedSyncAccepted(db.rolePermissions, role.id, PermissionModel, db.permissions, grant.value);
      var rejected := Roles.SyncPermissions(db, role.id, Wrap(AsArray, WhereInGet(PermissionModel, db.permissions, grant.value)));
      assert rejected.None?;
    }
  }

  /** `createDefaultRoles`, with the permissions handed over as arrays so
      that they are attached. */
  method CreateDefaultRoles(db: AuthDb)
    modifies db`roles, db`nextRoleId, db`rolePermissions
    ensures db.State() == DefaultRoles(old(db.State()), AsArray)
  {
    var defs := DefaultRoleDefs;
    ghost var s0 := db.State();
    CreateDefaultRole(db, defs[0].name, defs[0].displayName, defs[0].grant);
    assert DefaultRoles(s0, AsArray) == RunSteps(db.State(), defs, AsArray, 1);
    CreateDefaultRole(db, defs[1].name, defs[1].displayName, defs[1].grant);
    assert DefaultRoles(s0, AsArray) == RunSteps(db.State(), defs, AsArray, 2);
    CreateDefaultRole(db, defs[2].name, defs[2].displayName, defs[2].grant);
    assert DefaultRoles(s0, AsArray) == RunSteps(db.State(), defs, AsArray, 3);
    CreateDefaultRole(db, defs[3].name, defs[3].displayName, defs[3].grant);
    assert DefaultRoles(s0, AsArray) == RunSteps(db.State(), defs, AsArray, 4);
    CreateDefaultRole(db, defs[4].name, defs[4].displayName, defs[4].grant);
    assert DefaultRoles(s0, AsArray) == RunSteps(db.State(), defs, AsArray, 5);
  }

  /** Admin, editor and author end with exactly their permissions when they
      are handed over as arrays, and with none as written. */
  lemma DefaultRolesGrants(s: Store, form: Form)
    requires TableValid(s.roles, s.nextRoleId)
    ensures var r := DefaultRoles(s, form);
      Held(r, "admin") == Granted(s.permissions, GroupNames(["content", "users", "admin"]), form) &&
      Held(r, "editor") == Granted(s.permissions, GroupNames(["content"]), form) &&
      Held(r, "author") == Granted(s.permissions, {"create_post", "edit_post", "delete_post", "publish_post"}, form)
  {
    var defs := DefaultRoleDefs;
    DefaultRoleNamesDistinct();
    StepsGrant(s, defs, form, 1);
    StepsGrant(s, defs, form, 2);
    StepsGrant(s, defs, form, 3);
  }

  lemma DefaultRoleNamesDistinct()
    ensures DistinctNames(DefaultRoleDefs)
  {
  }

  /** `createDefaultRoles` keeps the roles table valid, creates the five
      roles and changes no table other than `roles` and `role_permissions`. */
  lemma DefaultRolesFrame(s: Store, form: Form)
    requires TableValid(s.roles, s.nextRoleId)
    ensures var r := DefaultRoles(s, form);
      TableValid(r.roles, r.nextRoleId) && OnlyRolesChanged(s, r) &&
      RoleId(r, "super-admin").Some? && RoleId(r, "admin").Some? && RoleId(r, "editor").Some? &&
      RoleId(r, "author").Some? && RoleId(r, "subscriber").Some?
  {
    FiveRolesFound(s, DefaultRoleDefs, form, "super-admin", "admin", "editor", "author", "subscriber");
  }

  // ---------------------------------------------------------- super admin

  /** The name of every permission row. */
  function AllNames(rows: seq<Row>): set<string> {
    set r | r in rows :: r.name
  }

  /** `assignAllPermissionsToSuperAdmin`: sync the super-admin role with
      `Permission::all()`, handed over in the given form. */
  function AllToSuperAdmin(s: Store, form: Form): Store {
    match FindByName(s.roles, "super-admin")
    case None => s
    case Some(role) => s.(rolePermissions := SyncNamed(s.rolePermissions, role.id, s.permissions, AllNames(s.permissions), form))
  }

  /** Handed over as an array, every permission goes to the super-admin role;
      as written, the collection strips it of every permission. No other
      role changes. */
  lemma AllToSuperAdminEffect(s: Store, form: Form, x: int)
    requires RoleId(s, "super-admin").Some?
    ensures var r := AllToSuperAdmin(s, form);
      Related(r.rolePermissions, x) ==
        if x == RoleId(s, "super-admin").value then (if form == AsArray then Ids(s.permissions) else {})
        else Related(s.rolePermissions, x)
  {
    var role := FindByName(s.roles, "super-admin").value;
    SyncNamedEffect(s.rolePermissions, role.id, s.permissions, AllNames(s.permissions), form, x);
    assert NamedIds(s.permissions, AllNames(s.permissions)) == Ids(s.permissions);
  }

  /** `assignAllPermissionsToSuperAdmin`, handing the rows over as an array. */
  method AssignAllPermissionsToSuperAdmin(db: AuthDb)
    modifies db`rolePermissions
    ensures db.State() == AllToSuperAdmin(old(db.State()), AsArray)
  {
    var found := FindByName(db.roles, "super-admin");
    if found.Some? {
      QueriedSyncAccepted(db.rolePermissions, found.value.id, PermissionModel, db.permissions, AllNames(db.permissions));
      var rejected := Roles.SyncPermissions(db, found.value.id, Wrap(AsArray, WhereInGet(PermissionModel, db.permissions, AllNames(db.permissions))));
      assert rejected.None?;
    }
  }

  /** What stops `ensureSuperAdminExists` as written: `User::role` is not a
      method or scope of the user model. */
  datatype InitError = UndefinedMethod

  /** `ensureSuperAdminExists` as written: it returns when the role is
      missing and otherwise throws at `User::role`. */
  function EnsureSuperAdminExistsAsWritten(s: Store): (r: Result<Store, InitError>)
    ensures r.Err? <==> FindByName(s.roles, "super-admin").Some?
    ensures r.Ok? ==> r.value == s
  {
    match FindByName(s.roles, "super-admin")
    case None => Ok(s)
    case Some(_) => Err(UndefinedMethod)
  }

  /** `ensureSuperAdminExists` with the query the comment describes: when no
      user holds the role, user 1 (if it exists) is given it by name. */
  function SuperAdminExists(s: Store): Store {
    match FindByName(s.roles, "super-admin")
    case None => s
    case Some(role) =>
      if SomeSuperAdmin(s) || 1 !in s.users then s
      else s.(userRoles := Attach(s.userRoles, 1, [role.id]))
  }

  /** As written it throws whenever the role exists; the corrected check
      leaves someone a super administrator when the role and user 1 exist,
      and changes nothing when someone already is. */
  lemma SuperAdminExistsLaws(s: Store)
    ensures RoleId(s, "super-admin").Some? <==> EnsureSuperAdminExistsAsWritten(s).Err?
    ensures RoleId(s, "super-admin").Some? && 1 in s.users ==> SomeSuperAdmin(SuperAdminExists(s))
    ensures SomeSuperAdmin(s) ==> SuperAdminExists(s) == s
  {
    var r := SuperAdminExists(s);
    if RoleId(s, "super-admin").Some? && 1 in s.users && !SomeSuperAdmin(s) {
      var role := FindByName(s.roles, "super-admin").value;
      AttachEffect(s.userRoles, 1, [role.id], 1);
      assert role.id in Related(r.userRoles, 1);
      assert "super-admin" in Users.RoleNames(r, 1);
    }
  }

  /** `ensureSuperAdminExists` with the corrected check. */
  method EnsureSuperAdminExists(db: AuthDb)
    modifies db`userRoles
    ensures db.State() == SuperAdminExists(old(db.State()))
  {
    var found := FindByName(db.roles, "super-admin");
    if found.None? {
      return;
    }
    var anyone := SomeSuperAdminIn(db.State());
    if !anyone && 1 in db.users {
      ResolveOne(RoleModel, db.roles, ByName("super-admin"));
      assert found.value.id in Ids(db.roles);
      var rejected := Users.AssignRole(db, 1, Single(ByName("super-admin")));
      assert rejected.None?;
    }
  }

  // ----------------------------------------------------------- initialize

  /** The store after `ensurePermissionsExist`. */
  function WithGroupPermissions(s: Store): Store {
    var missing := PermissionGroupService.Missing(PermissionGroupService.AllGroupPermissions(), s.permissions);
    s.(permissions := PermissionGroupService.Created(s.permissions, s.nextPermissionId, missing),
       nextPermissionId := s.nextPermissionId + |missing|)
  }

  /** The store after the grouped permissions, the default roles and the
      super-admin sync. */
  function Prepared(s: Store, form: Form): Store {
    AllToSuperAdmin(DefaultRoles(WithGroupPermissions(s), form), form)
  }

  /** `initialize` as written: every step before `ensureSuperAdminExists`
      has taken effect, then it throws. */
  function InitializeAsWritten(s: Store): (Store, Result<(), InitError>) {
    var p := Prepared(s, AsCollection);
    match EnsureSuperAdminExistsAsWritten(p)
    case Ok(r) => (r, Ok(()))
    case Err(e) => (p, Err(e))
  }

  /** `initialize` with the permissions handed over as arrays and the
      corrected super administrator check. */
  function Initialized(s: Store): Store {
    SuperAdminExists(Prepared(s, AsArray))
  }

  /** The super-admin sync changes no table but `role_permissions`, and the
      four roles keep their ids. */
  lemma PreparedFrame(s: Store, form: Form)
    requires TableValid(s.roles, s.nextRoleId)
    ensures var d := DefaultRoles(WithGroupPermissions(s), form);
      var p := Prepared(s, form);
      p.roles == d.roles && p.permissions == d.permissions == WithGroupPermissions(s).permissions && p.users == s.users &&
      RoleId(p, "super-admin").Some? && RoleId(p, "admin").Some? && RoleId(p, "editor").Some? && RoleId(p, "author").Some?
  {
    var s1 := WithGroupPermissions(s);
    DefaultRolesFrame(s1, form);
  }

  /** Since the default roles include super-admin, `initialize` as written
      always throws. */
  lemma InitializeAsWrittenFails(s: Store)
    requires TableValid(s.roles, s.nextRoleId)
    ensures InitializeAsWritten(s).1 == Err(UndefinedMethod)
  {
    PreparedFrame(s, AsCollection);
  }

  /** As written, `initialize` leaves the super-admin, admin, editor and
      author roles without any permission. */
  lemma InitializeAsWrittenGrantsNothing(s: Store)
    requires TableValid(s.roles, s.nextRoleId)
    ensures var p := InitializeAsWritten(s).0;
      Held(p, "super-admin") == {} && Held(p, "admin") == {} && Held(p, "editor") == {} && Held(p, "author") == {}
  {
    var s1 := WithGroupPermissions(s);
    var d := DefaultRoles(s1, AsCollection);
    DefaultRolesFrame(s1, AsCollection);
    DefaultRolesGrants(s1, AsCollection);
    PreparedFrame(s, AsCollection);
    InitializeAsWrittenFails(s);
    var p := Prepared(s, AsCollection);
    assert InitializeAsWritten(s).0 == p;
    AllToSuperAdminEffect(d, AsCollection, RoleId(d, "super-admin").value);
    AllToSuperAdminEffect(d, AsCollection, RoleId(d, "admin").value);
    AllToSuperAdminEffect(d, AsCollection, RoleId(d, "editor").value);
    AllToSuperAdminEffect(d, AsCollection, RoleId(d, "author").value);
  }

  /** With the corrections the super-admin role holds every permission, admin
      and editor their groups' permissions and author its four. */
  lemma PreparedGrants(s: Store)
    requires TableValid(s.roles, s.nextRoleId)
    ensures var p := Prepared(s, AsArray);
      Held(p, "super-admin") == Ids(p.permissions) &&
      Held(p, "admin") == NamedIds(p.permissions, GroupNames(["content", "users", "admin"])) &&
      Held(p, "editor") == NamedIds(p.permissions, GroupNames(["content"])) &&
      Held(p, "author") == NamedIds(p.permissions, {"create_post", "edit_post", "delete_post", "publish_post"})
  {
    var s1 := WithGroupPermissions(s);
    var d := DefaultRoles(s1, AsArray);
    DefaultRolesFrame(s1, AsArray);
    DefaultRolesGrants(s1, AsArray);
    PreparedFrame(s, AsArray);
    DistinctRoleIds(d, "super-admin", "admin");
    DistinctRoleIds(d, "super-admin", "editor");
    DistinctRoleIds(d, "super-admin", "author");
    AllToSuperAdminEffect(d, AsArray, RoleId(d, "super-admin").value);
    AllToSuperAdminEffect(d, AsArray, RoleId(d, "admin").value);
    AllToSuperAdminEffect(d, AsArray, RoleId(d, "editor").value);
    AllToSuperAdminEffect(d, AsArray, RoleId(d, "author").value);
  }

  /** With the corrections `initialize` keeps those grants and, when user 1
      exists, leaves a super administrator. */
  lemma InitializedLaws(s: Store)
    requires TableValid(s.roles, s.nextRoleId)
    ensures var r := Initialized(s);
      Held(r, "super-admin") == Ids(r.permissions) &&
      Held(r, "admin") == NamedIds(r.permissions, GroupNames(["content", "users", "admin"])) &&
      Held(r, "editor") == NamedIds(r.permissions, GroupNames(["content"])) &&
      Held(r, "author") == NamedIds(r.permissions, {"create_post", "edit_post", "delete_post", "publish_post"}) &&
      (1 in s.users ==> SomeSuperAdmin(r))
  {
    var p := Prepared(s, AsArray);
    PreparedFrame(s, AsArray);
    PreparedGrants(s);
    SuperAdminExistsLaws(p);
    var r := SuperAdminExists(p);
    assert r.roles == p.roles && r.permissions == p.permissions && r.rolePermissions == p.rolePermissions;
  }

  /** `initialize` with the corrections. */
  method Initialize(db: AuthDb)
    modifies db`permissions, db`nextPermissionId, db`roles, db`nextRoleId, db`rolePermissions, db`userRoles
    ensures db.State() == Initialized(old(db.State()))
  {
    ghost var s0 := db.State();
    PermissionGroupService.EnsurePermissionsExist(db);
    assert db.State() == WithGroupPermissions(s0);
    CreateDefaultRoles(db);
    AssignAllPermissionsToSuperAdmin(db);
    assert db.State() == Prepared(s0, AsArray);
    EnsureSuperAdminExists(db);
  }
}
