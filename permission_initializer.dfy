/** The boot-time initializer: creates the base permissions and roles, gives
    the admin, editor and author roles their permissions, makes sure some
    user is a super administrator, then refreshes the permission cache. */
module PermissionInitializer {
  import opened Common
  import opened AuthStore
  import Users
  import Roles
  import PermissionService

  /** One entry of a `createPermissionsIfNotExist` list; `display_name` and
      `description` are optional keys. */
  datatype PermissionSpec = PermissionSpec(name: string, displayName: Option<string>, description: Option<string>)

  function Named(name: string, displayName: string): PermissionSpec {
    PermissionSpec(name, Some(displayName), None)
  }

  const ContentPermissions: seq<PermissionSpec> := [
    Named("create_post", "创建文章"), Named("edit_own_post", "编辑自己的文章"),
    Named("delete_own_post", "删除自己的文章"), Named("publish_post", "发布文章"),
    Named("edit_others_post", "编辑他人的文章"), Named("delete_others_post", "删除他人的文章"),
    Named("edit_published_post", "编辑已发布的文章"), Named("manage_categories", "管理分类"),
    Named("manage_tags", "管理标签"), Named("access_admin_area", "访问管理后台")]

  const UserPermissions: seq<PermissionSpec> := [
    Named("list_users", "查看用户列表"), Named("create_user", "创建用户"),
    Named("edit_user", "编辑用户"), Named("delete_user", "删除用户")]

  const RolePermissions: seq<PermissionSpec> := [
    Named("assign_roles", "分配角色和权限"), Named("create_role", "创建角色"),
    Named("edit_role", "编辑角色"), Named("delete_role", "删除角色")]

  const SystemPermissions: seq<PermissionSpec> := [
    Named("manage_settings", "管理站点设置"), Named("manage_temporary_permissions", "管理临时权限")]

  /** The four lists `createBasePermissions` creates, in order. */
  const BasePermissions: seq<PermissionSpec> := ContentPermissions + UserPermissions + RolePermissions + SystemPermissions

  const AdminPermissionNames: set<string> := {
    "create_post", "edit_own_post", "delete_own_post", "publish_post",
    "edit_others_post", "delete_others_post", "edit_published_post",
    "manage_categories", "manage_tags", "list_users", "create_user",
    "edit_user", "delete_user", "access_admin_area"}

  const EditorPermissionNames: set<string> := {
    "create_post", "edit_own_post", "delete_own_post", "publish_post",
    "edit_others_post", "edit_published_post", "manage_categories",
    "manage_tags", "access_admin_area"}

  const AuthorPermissionNames: set<string> := {
    "create_post", "edit_own_post", "delete_own_post", "publish_post", "access_admin_area"}

  // ---------------------------------------------------------- permissions

  /** The permissions table and counter after `firstOrCreate` of each entry,
      with `display_name ?? name` and `description ?? null`. */
  function CreateAll(rows: seq<Row>, nextId: int, specs: seq<PermissionSpec>): (r: (seq<Row>, int))
    ensures rows <= r.0
    decreases |specs|
  {
    if |specs| == 0 then (rows, nextId)
    else
      var spec := specs[0];
      var (rows', nextId', _) := FirstOrCreate(rows, nextId, spec.name, Some(spec.displayName.GetOr(spec.name)), spec.description);
      CreateAll(rows', nextId', specs[1..])
  }

  /** A name a table holds stays found when rows are appended. */
  lemma FoundStaysFound(rows: seq<Row>, more: seq<Row>, name: string)
    requires FindByName(rows, name).Some? && rows <= more
    ensures FindByName(more, name).Some?
  {
    var row := FindByName(rows, name).value;
    var i :| 0 <= i < |rows| && rows[i] == row;
    assert more[i].name == name;
  }

  /** Creating the entries keeps the table valid and leaves every entry's name
      in it; a second run over the result creates nothing. */
  lemma {:induction false} CreateAllLaws(rows: seq<Row>, nextId: int, specs: seq<PermissionSpec>)
    requires TableValid(rows, nextId)
    decreases |specs|
    ensures var (rows', nextId') := CreateAll(rows, nextId, specs);
      TableValid(rows', nextId') &&
      (forall spec :: spec in specs ==> FindByName(rows', spec.name).Some?) &&
      CreateAll(rows', nextId', specs) == (rows', nextId')
  {
    var (rows', nextId') := CreateAll(rows, nextId, specs);
    if |specs| > 0 {
      var spec := specs[0];
      var (r1, n1, _) := FirstOrCreate(rows, nextId, spec.name, Some(spec.displayName.GetOr(spec.name)), spec.description);
      FirstOrCreateLaws(rows, nextId, spec.name, Some(spec.displayName.GetOr(spec.name)), spec.description);
      CreateAllLaws(r1, n1, specs[1..]);
      FoundStaysFound(r1, rows', spec.name);
      assert forall s :: s in specs ==> s == spec || s in specs[1..];
    }
    CreateAllNothingNew(rows', nextId', specs);
  }

  /** When every entry is already present, nothing is created. */
  lemma {:induction false} CreateAllNothingNew(rows: seq<Row>, nextId: int, specs: seq<PermissionSpec>)
    requires forall spec :: spec in specs ==> FindByName(rows, spec.name).Some?
    ensures CreateAll(rows, nextId, specs) == (rows, nextId)
  {
    if |specs| > 0 {
      assert specs[0] in specs;
      CreateAllNothingNew(rows, nextId, specs[1..]);
    }
  }

  /** Creating two lists one after the other is creating their concatenation. */
  lemma {:induction false} CreateAllAppend(rows: seq<Row>, nextId: int, a: seq<PermissionSpec>, b: seq<PermissionSpec>)
    ensures CreateAll(rows, nextId, a + b) == var (r1, n1) := CreateAll(rows, nextId, a); CreateAll(r1, n1, b)
    decreases |a|
  {
    if |a| > 0 {
      var spec := a[0];
      var (r1, n1, _) := FirstOrCreate(rows, nextId, spec.name, Some(spec.displayName.GetOr(spec.name)), spec.description);
      assert (a + b)[0] == spec && (a + b)[1..] == a[1..] + b;
      CreateAllAppend(r1, n1, a[1..], b);
    } else {
      assert a + b == b;
    }
  }

  /** `createPermissionsIfNotExist`. */
  method CreatePermissionsIfNotExist(db: AuthDb, specs: seq<PermissionSpec>)
    modifies db`permissions, db`nextPermissionId
    ensures (db.permissions, db.nextPermissionId) == CreateAll(old(db.permissions), old(db.nextPermissionId), specs)
  {
    var i := 0;
    while i < |specs|
      invariant 0 <= i <= |specs|
      invariant CreateAll(old(db.permissions), old(db.nextPermissionId), specs) ==
                CreateAll(db.permissions, db.nextPermissionId, specs[i..])
    {
      var spec := specs[i];
      assert specs[i..][0] == spec && specs[i..][1..] == specs[i + 1..];
      var (rows', nextId', _) := FirstOrCreate(db.permissions, db.nextPermissionId, spec.name,
                                               Some(spec.displayName.GetOr(spec.name)), spec.description);
      db.permissions, db.nextPermissionId := rows', nextId';
      i := i + 1;
    }
  }

  /** `createBasePermissions`: the four lists, in order. */
  method CreateBasePermissions(db: AuthDb)
    modifies db`permissions, db`nextPermissionId
    ensures (db.permissions, db.nextPermissionId) == CreateAll(old(db.permissions), old(db.nextPermissionId), BasePermissions)
  {
    CreatePermissionsIfNotExist(db, ContentPermissions);
    CreatePermissionsIfNotExist(db, UserPermissions);
    CreatePermissionsIfNotExist(db, RolePermissions);
    CreatePermissionsIfNotExist(db, SystemPermissions);
    var r0, n0 := old(db.permissions), old(db.nextPermissionId);
    CreateAllAppend(r0, n0, ContentPermissions + UserPermissions + RolePermissions, SystemPermissions);
    CreateAllAppend(r0, n0, ContentPermissions + UserPermissions, RolePermissions);
    CreateAllAppend(r0, n0, ContentPermissions, UserPermissions);
  }

  // ---------------------------------------------------------------- roles

  /** The id of the role with this name, when there is one. */
  function RoleId(s: Store, name: string): Option<int> {
    match FindByName(s.roles, name)
    case Some(row) => Some(row.id)
    case None => None
  }

  /** The permission ids linked to the named role (none when it is missing). */
  function Held(s: Store, name: string): set<int> {
    match RoleId(s, name)
    case Some(id) => Related(s.rolePermissions, id)
    case None => {}
  }

  /** One role `createBaseRoles` makes: its attributes and, for admin,
      editor and author, the permission names it is synced with. */
  datatype RoleDef = RoleDef(name: string, displayName: string, description: Option<string>, grant: Option<set<string>>)

  const BaseRoleDefs: seq<RoleDef> := [
    RoleDef("super-admin", "超级管理员", Some("拥有所有权限"), None),
    RoleDef("admin", "管理员", Some("可以管理大部分内容和用户"), Some(AdminPermissionNames)),
    RoleDef("editor", "编辑", Some("可以管理内容"), Some(EditorPermissionNames)),
    RoleDef("author", "作者", Some("可以创建和管理自己的内容"), Some(AuthorPermissionNames)),
    RoleDef("subscriber", "订阅者", Some("仅有基本权限"), None)]

  /** `Role::firstOrCreate` of one role, then, when it is given permission
      names, `syncPermissions` with the rows a `whereIn` query returns. */
  function RoleStep(s: Store, d: RoleDef, form: Form): Store {
    var (roles', nextId', role) := FirstOrCreate(s.roles, s.nextRoleId, d.name, Some(d.displayName), d.description);
    var s' := s.(roles := roles', nextRoleId := nextId');
    match d.grant
    case None => s'
    case Some(names) => s'.(rolePermissions := SyncNamed(s.rolePermissions, role.id, s.permissions, names, form))
  }

  /** The roles from position k on, made one after the other. */
  function RunSteps(s: Store, defs: seq<RoleDef>, form: Form, k: nat): Store
    decreases |defs| - k
  {
    if k >= |defs| then s else RunSteps(RoleStep(s, defs[k], form), defs, form, k + 1)
  }

  /** `createBaseRoles`, with the queried permissions handed to
      `syncPermissions` in the given form. */
  function BaseRoles(s: Store, form: Form): Store {
    RunSteps(s, BaseRoleDefs, form, 0)
  }

  /** One step keeps the roles table valid, keeps every role it had (under
      the same id), creates the named one and changes no other table. */
  lemma RoleStepFrame(s: Store, d: RoleDef, form: Form)
    requires TableValid(s.roles, s.nextRoleId)
    ensures var r := RoleStep(s, d, form);
      TableValid(r.roles, r.nextRoleId) && s.roles <= r.roles && RoleId(r, d.name).Some? &&
      r == s.(roles := r.roles, nextRoleId := r.nextRoleId, rolePermissions := r.rolePermissions) &&
      (forall n :: RoleId(s, n).Some? ==> RoleId(r, n) == RoleId(s, n))
  {
    var r := RoleStep(s, d, form);
    var (roles', nextId', role) := FirstOrCreate(s.roles, s.nextRoleId, d.name, Some(d.displayName), d.description);
    FirstOrCreateLaws(s.roles, s.nextRoleId, d.name, Some(d.displayName), d.description);
    forall n | RoleId(s, n).Some? ensures RoleId(r, n) == RoleId(s, n) {
      var row := FindByName(s.roles, n).value;
      FindUnique(roles', nextId', row);
    }
  }

  /** One step gives the named role exactly the granted permissions and
      leaves every other role's permissions alone. */
  lemma RoleStepGrant(s: Store, d: RoleDef, form: Form, x: int)
    requires TableValid(s.roles, s.nextRoleId)
    ensures var r := RoleStep(s, d, form);
      RoleId(r, d.name).Some? &&
      Related(r.rolePermissions, x) ==
        if d.grant.Some? && x == RoleId(r, d.name).value then Granted(s.permissions, d.grant.value, form) else Related(s.rolePermissions, x)
  {
    var (roles', nextId', role) := FirstOrCreate(s.roles, s.nextRoleId, d.name, Some(d.displayName), d.description);
    FirstOrCreateLaws(s.roles, s.nextRoleId, d.name, Some(d.displayName), d.description);
    FindUnique(roles', nextId', role);
    if d.grant.Some? {
      SyncNamedEffect(s.rolePermissions, role.id, s.permissions, d.grant.value, form, x);
    }
  }

  /** Only `roles`, its counter and `role_permissions` differ between the two stores. */
  predicate OnlyRolesChanged(s: Store, r: Store) {
    r == s.(roles := r.roles, nextRoleId := r.nextRoleId, rolePermissions := r.rolePermissions)
  }

  /** Running the steps keeps the roles table valid, keeps every row it had
      and changes no other table. */
  lemma {:induction false} RunStepsTables(s: Store, defs: seq<RoleDef>, form: Form, k: nat)
    requires TableValid(s.roles, s.nextRoleId)
    ensures var r := RunSteps(s, defs, form, k);
      TableValid(r.roles, r.nextRoleId) && s.roles <= r.roles && OnlyRolesChanged(s, r)
    decreases |defs| - k
  {
    if k < |defs| {
      var s1 := RoleStep(s, defs[k], form);
      RoleStepFrame(s, defs[k], form);
      RunStepsTables(s1, defs, form, k + 1);
    }
  }

  /** Running the steps creates every listed role. */
  lemma {:induction false} RunStepsFrame(s: Store, defs: seq<RoleDef>, form: Form, k: nat)
    requires TableValid(s.roles, s.nextRoleId)
    ensures forall i :: k <= i < |defs| ==> FindByName(RunSteps(s, defs, form, k).roles, defs[i].name).Some?
    decreases |defs| - k
  {
    if k < |defs| {
      var s1 := RoleStep(s, defs[k], form);
      var r := RunSteps(s1, defs, form, k + 1);
      assert RunSteps(s, defs, form, k) == r;
      RoleStepFrame(s, defs[k], form);
      RunStepsTables(s1, defs, form, k + 1);
      RunStepsFrame(s1, defs, form, k + 1);
      FoundStaysFound(s1.roles, r.roles, defs[k].name);
      forall i | k <= i < |defs| ensures FindByName(r.roles, defs[i].name).Some? {
        if i == k {
          FoundStaysFound(s1.roles, r.roles, defs[k].name);
        }
      }
    }
  }

  /** A role keeps its id when rows are appended to a valid table. */
  lemma RoleIdPersists(s: Store, r: Store, name: string)
    requires TableValid(r.roles, r.nextRoleId) && s.roles <= r.roles && RoleId(s, name).Some?
    ensures RoleId(r, name) == RoleId(s, name)
  {
    var row := FindByName(s.roles, name).value;
    var i :| 0 <= i < |s.roles| && s.roles[i] == row;
    assert r.roles[i] == row;
    FindUnique(r.roles, r.nextRoleId, row);
  }

  /** The role names of a list are pairwise distinct. */
  predicate DistinctNames(defs: seq<RoleDef>) {
    forall i, j :: 0 <= i < j < |defs| ==> defs[i].name != defs[j].name
  }

  /** Some listed role from position k on with permission names has this id in `s`. */
  predicate SyncedId(s: Store, defs: seq<RoleDef>, k: nat, x: int) {
    exists i :: k <= i < |defs| && defs[i].grant.Some? && RoleId(s, defs[i].name) == Some(x)
  }

  /** A role the steps do not sync keeps its permissions. */
  lemma {:induction false} RunStepsUntouched(s: Store, defs: seq<RoleDef>, form: Form, k: nat, x: int)
    requires TableValid(s.roles, s.nextRoleId)
    requires !SyncedId(RunSteps(s, defs, form, k), defs, k, x)
    ensures Related(RunSteps(s, defs, form, k).rolePermissions, x) == Related(s.rolePermissions, x)
    decreases |defs| - k
  {
    if k < |defs| {
      var r := RunSteps(s, defs, form, k);
      var s1 := RoleStep(s, defs[k], form);
      RoleStepFrame(s, defs[k], form);
      RunStepsTables(s1, defs, form, k + 1);
      RoleIdPersists(s1, r, defs[k].name);
      assert !SyncedId(r, defs, k + 1, x);
      RunStepsUntouched(s1, defs, form, k + 1, x);
      RoleStepGrant(s, defs[k], form, x);
    }
  }

  /** Each listed role with permission names ends holding exactly what its
      names grant in the given form. */
  lemma {:induction false} RunStepsGrant(s: Store, defs: seq<RoleDef>, form: Form, k: nat, i: int)
    requires TableValid(s.roles, s.nextRoleId) && DistinctNames(defs)
    requires k <= i < |defs| && defs[i].grant.Some?
    ensures var r := RunSteps(s, defs, form, k);
      RoleId(r, defs[i].name).Some? &&
      Related(r.rolePermissions, RoleId(r, defs[i].name).value) == Granted(s.permissions, defs[i].grant.value, form)
    decreases |defs| - k
  {
    var r := RunSteps(s, defs, form, k);
    var s1 := RoleStep(s, defs[k], form);
    RoleStepFrame(s, defs[k], form);
    RunStepsTables(s1, defs, form, k + 1);
    RunStepsFrame(s1, defs, form, k + 1);
    if i == k {
      RoleIdPersists(s1, r, defs[k].name);
      var x := RoleId(r, defs[k].name).value;
      RoleStepGrant(s, defs[k], form, x);
      forall j | k + 1 <= j < |defs| && defs[j].grant.Some? ensures RoleId(r, defs[j].name) != Some(x) {
        DistinctRoleIds(r, defs[k].name, defs[j].name);
      }
      RunStepsUntouched(s1, defs, form, k + 1, x);
    } else {
      RunStepsGrant(s1, defs, form, k + 1, i);
    }
  }

  /** `createBaseRoles` keeps the roles table valid, keeps every row it had,
      and changes no table other than `roles` and `role_permissions`. */
  lemma BaseRolesTables(s: Store, form: Form)
    requires TableValid(s.roles, s.nextRoleId)
    ensures var r := BaseRoles(s, form);
      TableValid(r.roles, r.nextRoleId) && s.roles <= r.roles && OnlyRolesChanged(s, r)
  {
    RunStepsTables(s, BaseRoleDefs, form, 0);
  }

  /** After `createBaseRoles` the five roles exist. */
  lemma BaseRolesFrame(s: Store, form: Form)
    requires TableValid(s.roles, s.nextRoleId)
    ensures var r := BaseRoles(s, form);
      RoleId(r, "super-admin").Some? && RoleId(r, "admin").Some? && RoleId(r, "editor").Some? &&
      RoleId(r, "author").Some? && RoleId(r, "subscriber").Some?
  {
    FiveRolesFound(s, BaseRoleDefs, form, "super-admin", "admin", "editor", "author", "subscriber");
  }

  /** Five role definitions, run in order, leave all five roles in place. */
  lemma FiveRolesFound(s: Store, defs: seq<RoleDef>, form: Form, a: string, b: string, c: string, d: string, e: string)
    requires TableValid(s.roles, s.nextRoleId) && |defs| == 5
    requires defs[0].name == a && defs[1].name == b && defs[2].name == c && defs[3].name == d && defs[4].name == e
    ensures var r := RunSteps(s, defs, form, 0);
      TableValid(r.roles, r.nextRoleId) && OnlyRolesChanged(s, r) &&
      RoleId(r, a).Some? && RoleId(r, b).Some? && RoleId(r, c).Some? && RoleId(r, d).Some? && RoleId(r, e).Some?
  {
    RunStepsTables(s, defs, form, 0);
    RunStepsFrame(s, defs, form, 0);
  }

  /** A listed role with permission names ends holding what they grant. */
  lemma StepsGrant(s: Store, defs: seq<RoleDef>, form: Form, i: int)
    requires TableValid(s.roles, s.nextRoleId) && DistinctNames(defs)
    requires 0 <= i < |defs| && defs[i].grant.Some?
    ensures Held(RunSteps(s, defs, form, 0), defs[i].name) == Granted(s.permissions, defs[i].grant.value, form)
  {
    RunStepsGrant(s, defs, form, 0, i);
  }

  lemma BaseRoleNamesDistinct()
    ensures DistinctNames(BaseRoleDefs)
  {
  }

  /** After `createBaseRoles` admin, editor and author hold exactly what their
      lists grant in the given form. */
  lemma BaseRolesGrants(s: Store, form: Form)
    requires TableValid(s.roles, s.nextRoleId)
    ensures var r := BaseRoles(s, form);
      Held(r, "admin") == Granted(s.permissions, AdminPermissionNames, form) &&
      Held(r, "editor") == Granted(s.permissions, EditorPermissionNames, form) &&
      Held(r, "author") == Granted(s.permissions, AuthorPermissionNames, form)
  {
    var defs := BaseRoleDefs;
    BaseRoleNamesDistinct();
    StepsGrant(s, defs, form, 1);
    StepsGrant(s, defs, form, 2);
    StepsGrant(s, defs, form, 3);
  }

  /** The super-admin and subscriber roles keep the permissions they held. */
  lemma BaseRolesKeepOthers(s: Store, form: Form)
    requires TableValid(s.roles, s.nextRoleId)
    ensures var r := BaseRoles(s, form);
      RoleId(r, "super-admin").Some? && RoleId(r, "subscriber").Some? &&
      Related(r.rolePermissions, RoleId(r, "super-admin").value) == Related(s.rolePermissions, RoleId(r, "super-admin").value) &&
      Related(r.rolePermissions, RoleId(r, "subscriber").value) == Related(s.rolePermissions, RoleId(r, "subscriber").value)
  {
    assert BaseRoleDefs[0].name == "super-admin" && BaseRoleDefs[4].name == "subscriber";
    UnsyncedRoleKept(s, form, 0);
    UnsyncedRoleKept(s, form, 4);
  }

  /** One of the two unsynced base roles exists afterwards and keeps its
      permissions. */
  lemma UnsyncedRoleKept(s: Store, form: Form, k: int)
    requires TableValid(s.roles, s.nextRoleId) && (k == 0 || k == 4)
    ensures var r := BaseRoles(s, form);
      RoleId(r, BaseRoleDefs[k].name).Some? &&
      Related(r.rolePermissions, RoleId(r, BaseRoleDefs[k].name).value) ==
      Related(s.rolePermissions, RoleId(r, BaseRoleDefs[k].name).value)
  {
    var r := BaseRoles(s, form);
    RunStepsTables(s, BaseRoleDefs, form, 0);
    RunStepsFrame(s, BaseRoleDefs, form, 0);
    UnsyncedBaseRole(r, k);
    RunStepsUntouched(s, BaseRoleDefs, form, 0, RoleId(r, BaseRoleDefs[k].name).value);
  }

  /** The super-admin and subscriber roles (positions 0 and 4) share no id
      with a synced role. */
  lemma UnsyncedBaseRole(r: Store, k: int)
    requires TableValid(r.roles, r.nextRoleId) && (k == 0 || k == 4)
    requires forall i :: 0 <= i < |BaseRoleDefs| ==> RoleId(r, BaseRoleDefs[i].name).Some?
    ensures !SyncedId(r, BaseRoleDefs, 0, RoleId(r, BaseRoleDefs[k].name).value)
  {
    var defs := BaseRoleDefs;
    forall i | 0 <= i < |defs| && defs[i].grant.Some? ensures RoleId(r, defs[i].name) != RoleId(r, defs[k].name) {
      assert i == 1 || i == 2 || i == 3;
      DistinctRoleIds(r, defs[i].name, defs[k].name);
    }
  }

  /** In a valid table two different names never share an id. */
  lemma DistinctRoleIds(s: Store, a: string, b: string)
    requires TableValid(s.roles, s.nextRoleId) && a != b && RoleId(s, a).Some? && RoleId(s, b).Some?
    ensures RoleId(s, a) != RoleId(s, b)
  {
    var ra := FindByName(s.roles, a).value;
    var rb := FindByName(s.roles, b).value;
    var i :| 0 <= i < |s.roles| && s.roles[i] == ra;
    var j :| 0 <= j < |s.roles| && s.roles[j] == rb;
  }

  /** `Role::firstOrCreate` as the model methods run it. */
  method FirstOrCreateRole(db: AuthDb, d: RoleDef) returns (role: Row)
    modifies db`roles, db`nextRoleId
    ensures (db.roles, db.nextRoleId, role) == FirstOrCreate(old(db.roles), old(db.nextRoleId), d.name, Some(d.displayName), d.description)
  {
    var (roles', nextId', row) := FirstOrCreate(db.roles, db.nextRoleId, d.name, Some(d.displayName), d.description);
    db.roles, db.nextRoleId := roles', nextId';
    role := row;
  }

  /** One role of `createBaseRoles`, handing the queried rows over as an array. */
  method CreateRoleWith(db: AuthDb, d: RoleDef)
    modifies db`roles, db`nextRoleId, db`rolePermissions
    ensures db.State() == RoleStep(old(db.State()), d, AsArray)
  {
    var role := FirstOrCreateRole(db, d);
    if d.grant.Some? {
      QueriedSyncAccepted(db.rolePermissions, role.id, PermissionModel, db.permissions, d.grant.value);
      var rejected := Roles.SyncPermissions(db, role.id, Wrap(AsArray, WhereInGet(PermissionModel, db.permissions, d.grant.value)));
      assert rejected.None?;
    }
  }

  /** `createBaseRoles`, with each query result handed to `syncPermissions`
      as an array of models so that the permissions are attached. */
  method CreateBaseRoles(db: AuthDb)
    modifies db`roles, db`nextRoleId, db`rolePermissions
    ensures db.State() == BaseRoles(old(db.State()), AsArray)
  {
    var defs := BaseRoleDefs;
    ghost var s0 := db.State();
    CreateRoleWith(db, defs[0]);
    assert BaseRoles(s0, AsArray) == RunSteps(db.State(), defs, AsArray, 1);
    CreateRoleWith(db, defs[1]);
    assert BaseRoles(s0, AsArray) == RunSteps(db.State(), defs, AsArray, 2);
    CreateRoleWith(db, defs[2]);
    assert BaseRoles(s0, AsArray) == RunSteps(db.State(), defs, AsArray, 3);
    CreateRoleWith(db, defs[3]);
    assert BaseRoles(s0, AsArray) == RunSteps(db.State(), defs, AsArray, 4);
    CreateRoleWith(db, defs[4]);
    assert BaseRoles(s0, AsArray) == RunSteps(db.State(), defs, AsArray, 5);
  }

  /** As written, each query result reaches `syncPermissions` as the Eloquent
      collection, which is not an array: admin, editor and author end with no
      permission at all; handed over as an array they get their lists. */
  lemma BaseRolesAsWrittenGrantNothing(s: Store)
    requires TableValid(s.roles, s.nextRoleId)
    ensures Held(BaseRoles(s, AsCollection), "admin") == {}
    ensures Held(BaseRoles(s, AsCollection), "editor") == {}
    ensures Held(BaseRoles(s, AsCollection), "author") == {}
    ensures Held(BaseRoles(s, AsArray), "admin") == NamedIds(s.permissions, AdminPermissionNames)
  {
    BaseRolesGrants(s, AsCollection);
    BaseRolesGrants(s, AsArray);
  }

  // ---------------------------------------------------------- super admin

  /** Some existing user holds a role named "super-admin" (`whereHas`). */
  predicate SomeSuperAdmin(s: Store) {
    exists u :: u in s.users && "super-admin" in Users.RoleNames(s, u)
  }

  /** `ensureSuperAdmin`: when the role exists and nobody holds it, the first
      user (in primary-key order) is given it. */
  function SuperAdminEnsured(s: Store): Store {
    match FindByName(s.roles, "super-admin")
    case None => s
    case Some(role) =>
      if SomeSuperAdmin(s) || |s.users| == 0 then s
      else s.(userRoles := Attach(s.userRoles, s.users[0], [role.id]))
  }

  /** Afterwards someone is a super administrator whenever the role and a user
      exist; when someone already was, nothing changes; only `user_roles` of
      the first user can change. */
  lemma SuperAdminEnsuredLaws(s: Store)
    ensures var r := SuperAdminEnsured(s);
      (FindByName(s.roles, "super-admin").Some? && |s.users| > 0 ==> SomeSuperAdmin(r)) &&
      (SomeSuperAdmin(s) ==> r == s) &&
      r == s.(userRoles := r.userRoles) &&
      (forall u :: (|s.users| == 0 || u != s.users[0]) ==> Related(r.userRoles, u) == Related(s.userRoles, u))
  {
    var r := SuperAdminEnsured(s);
    if FindByName(s.roles, "super-admin").Some? && !SomeSuperAdmin(s) && |s.users| > 0 {
      var role := FindByName(s.roles, "super-admin").value;
      var u := s.users[0];
      AttachEffect(s.userRoles, u, [role.id], u);
      assert role.id in Related(r.userRoles, u);
      assert "super-admin" in Users.RoleNames(r, u);
      forall x | x != u ensures Related(r.userRoles, x) == Related(s.userRoles, x) {
        AttachEffect(s.userRoles, u, [role.id], x);
      }
    }
  }

  /** `ensureSuperAdmin` as the model methods run it. */
  method EnsureSuperAdmin(db: AuthDb)
    modifies db`userRoles
    ensures db.State() == SuperAdminEnsured(old(db.State()))
  {
    var found := FindByName(db.roles, "super-admin");
    if found.None? {
      return;
    }
    var role := found.value;
    var exists_ := SomeSuperAdminIn(db.State());
    if !exists_ && |db.users| > 0 {
      ResolveOne(RoleModel, db.roles, Model(RoleModel, role.id, role.name));
      assert role.id in Ids(db.roles);
      var rejected := Users.AssignRole(db, db.users[0], Single(Model(RoleModel, role.id, role.name)));
      assert rejected.None?;
    }
  }

  /** The `whereHas('roles', ...)->exists()` query, user by user. */
  method SomeSuperAdminIn(s: Store) returns (r: bool)
    ensures r == SomeSuperAdmin(s)
  {
    var i := 0;
    while i < |s.users|
      invariant 0 <= i <= |s.users|
      invariant forall k :: 0 <= k < i ==> "super-admin" !in Users.RoleNames(s, s.users[k])
    {
      if "super-admin" in Users.RoleNames(s, s.users[i]) {
        return true;
      }
      i := i + 1;
    }
    return false;
  }

  // ----------------------------------------------------------- initialize

  /** The whole store after `initialize`. */
  function Initialized(s: Store): Store {
    SuperAdminEnsured(Seeded(s))
  }

  /** `initialize`: permissions, roles, the super administrator, then a fresh
      permission cache. */
  method Initialize(db: AuthDb, service: PermissionService.Service)
    modifies db`permissions, db`nextPermissionId, db`roles, db`nextRoleId, db`rolePermissions, db`userRoles
    modifies service`permissionCache
    ensures db.State() == Initialized(old(db.State()))
    ensures service.permissionCache == Some(PermissionService.KeyBy(db.permissions))
  {
    CreateBasePermissions(db);
    CreateBaseRoles(db);
    EnsureSuperAdmin(db);
    service.RefreshPermissionCache(db);
  }

  /** The store after the permissions and roles of `initialize`, before the
      super administrator is ensured. */
  function Seeded(s: Store): Store {
    var (permissions', nextId') := CreateAll(s.permissions, s.nextPermissionId, BasePermissions);
    BaseRoles(s.(permissions := permissions', nextPermissionId := nextId'), AsArray)
  }

  /** After `initialize` both tables are valid and every base permission and
      role exists. */
  lemma InitializedTables(s: Store)
    requires TableValid(s.permissions, s.nextPermissionId) && TableValid(s.roles, s.nextRoleId)
    ensures var r := Initialized(s);
      TableValid(r.permissions, r.nextPermissionId) && TableValid(r.roles, r.nextRoleId) &&
      (forall spec :: spec in BasePermissions ==> FindByName(r.permissions, spec.name).Some?) &&
      RoleId(r, "super-admin").Some? && RoleId(r, "admin").Some? && RoleId(r, "editor").Some? &&
      RoleId(r, "author").Some? && RoleId(r, "subscriber").Some?
  {
    SeededTables(s);
    SuperAdminEnsuredLaws(Seeded(s));
  }

  /** The same facts hold before the super administrator is ensured. */
  lemma SeededTables(s: Store)
    requires TableValid(s.permissions, s.nextPermissionId) && TableValid(s.roles, s.nextRoleId)
    ensures var r := Seeded(s);
      TableValid(r.permissions, r.nextPermissionId) && TableValid(r.roles, r.nextRoleId) &&
      (forall spec :: spec in BasePermissions ==> FindByName(r.permissions, spec.name).Some?) &&
      RoleId(r, "super-admin").Some? && RoleId(r, "admin").Some? && RoleId(r, "editor").Some? &&
      RoleId(r, "author").Some? && RoleId(r, "subscriber").Some?
  {
    var (permissions', nextId') := CreateAll(s.permissions, s.nextPermissionId, BasePermissions);
    CreateAllLaws(s.permissions, s.nextPermissionId, BasePermissions);
    var s1 := s.(permissions := permissions', nextPermissionId := nextId');
    BaseRolesTables(s1, AsArray);
    BaseRolesFrame(s1, AsArray);
    assert BaseRoles(s1, AsArray) == Seeded(s);
  }

  /** After `initialize` admin, editor and author hold the ids of exactly the
      permissions their lists name. */
  lemma InitializedGrants(s: Store)
    requires TableValid(s.roles, s.nextRoleId)
    ensures var r := Initialized(s);
      Held(r, "admin") == NamedIds(r.permissions, AdminPermissionNames) &&
      Held(r, "editor") == NamedIds(r.permissions, EditorPermissionNames) &&
      Held(r, "author") == NamedIds(r.permissions, AuthorPermissionNames)
  {
    var (permissions', nextId') := CreateAll(s.permissions, s.nextPermissionId, BasePermissions);
    var s1 := s.(permissions := permissions', nextPermissionId := nextId');
    BaseRolesTables(s1, AsArray);
    BaseRolesGrants(s1, AsArray);
    var s2 := BaseRoles(s1, AsArray);
    assert s2 == Seeded(s);
    SuperAdminEnsuredLaws(s2);
    var r := SuperAdminEnsured(s2);
    assert r.permissions == s2.permissions == permissions' && r.roles == s2.roles && r.rolePermissions == s2.rolePermissions;
  }

  /** After `initialize` some user is a super administrator whenever there is
      any user. */
  lemma InitializedHasSuperAdmin(s: Store)
    requires TableValid(s.roles, s.nextRoleId) && |s.users| > 0
    ensures SomeSuperAdmin(Initialized(s))
  {
    var (permissions', nextId') := CreateAll(s.permissions, s.nextPermissionId, BasePermissions);
    var s1 := s.(permissions := permissions', nextPermissionId := nextId');
    BaseRolesTables(s1, AsArray);
    BaseRolesFrame(s1, AsArray);
    var s2 := BaseRoles(s1, AsArray);
    assert s2 == Seeded(s);
    SuperAdminEnsuredLaws(s2);
  }
}
