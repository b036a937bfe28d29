/** The `Role` model: its permission test, the mutators of `role_permissions`
    seen from the role, and the ids of its holders. */
module Roles {
  import opened Common
  import opened Php
  import opened AuthStore
  import Users

  /** `hasPermission`: by name, by id or by Permission object; anything else is false. */
  predicate HasPermission(s: Store, roleId: int, p: Ref) {
    match p
    case ByName(n) => n in Users.RolePermNames(s, roleId)
    case ById(i) => i in Related(s.rolePermissions, roleId) && i in Ids(s.permissions)
    case Model(k, i, _) => k == PermissionModel && i in Related(s.rolePermissions, roleId) && i in Ids(s.permissions)
    case OtherValue => false
  }

  /** A role's permission reaches every holder of the role, through
      `hasPermissionTo`, unless its name is falsy ("" or "0"). */
  lemma RolePermissionInherited(s: Store, role: Row, u: int, n: string, check: map<string, Scalar>, now: int)
    requires role in s.roles && role.id in Related(s.userRoles, u)
    requires HasPermission(s, role.id, ByName(n)) && Truthy(n)
    ensures Users.HasPermissionTo(s, u, ByName(n), check, now)
  {
    assert role in Users.UserRoles(s, u);
    assert Users.RoleGrants(s, role, None, Some(n));
  }

  /** `givePermissionTo` on a role: attach the resolved permission ids. */
  method GivePermissionTo(db: AuthDb, roleId: int, permissions: Arg) returns (rejected: Option<int>)
    modifies db`rolePermissions
    ensures var ids := ResolveAll(PermissionModel, old(db.permissions), Items(permissions));
      var r := if ids == [] then (old(db.rolePermissions), None)
               else AttachChecked(old(db.rolePermissions), roleId, ids, Ids(old(db.permissions)));
      db.State() == old(db.State()).(rolePermissions := r.0) && rejected == r.1
  {
    var ids := CollectIds(PermissionModel, db.permissions, permissions);
    rejected := None;
    if ids != [] {
      var r := AttachChecked(db.rolePermissions, roleId, ids, Ids(db.permissions));
      db.rolePermissions, rejected := r.0, r.1;
    }
  }

  /** `revokePermissionTo` on a role: detach the resolved permission ids. */
  method RevokePermissionTo(db: AuthDb, roleId: int, permissions: Arg)
    modifies db`rolePermissions
    ensures db.State() == old(db.State()).(rolePermissions :=
      var ids := ResolveAll(PermissionModel, old(db.permissions), Items(permissions));
      if ids == [] then old(db.rolePermissions) else Detach(old(db.rolePermissions), roleId, ids))
  {
    var ids := CollectIds(PermissionModel, db.permissions, permissions);
    if ids != [] {
      db.rolePermissions := Detach(db.rolePermissions, roleId, ids);
    }
  }

  /** `syncPermissions` on a role: its permissions become exactly the resolved
      ids, even when none resolve. */
  method SyncPermissions(db: AuthDb, roleId: int, permissions: Arg) returns (rejected: Option<int>)
    modifies db`rolePermissions
    ensures var r := SyncChecked(old(db.rolePermissions), roleId, ResolveAll(PermissionModel, old(db.permissions), Items(permissions)),
                                 Ids(old(db.permissions)));
      db.State() == old(db.State()).(rolePermissions := r.0) && rejected == r.1
  {
    var ids := CollectIds(PermissionModel, db.permissions, permissions);
    var r := SyncChecked(db.rolePermissions, roleId, ids, Ids(db.permissions));
    db.rolePermissions, rejected := r.0, r.1;
  }

  /** Revoking a permission by id takes it from the role, and leaves every
      other role's permissions as they were. */
  lemma RevokedPermissionIsGone(s: Store, roleId: int, permId: int, other: int)
    requires other != roleId
    ensures !HasPermission(s.(rolePermissions := Detach(s.rolePermissions, roleId, ResolveAll(PermissionModel, s.permissions, [ById(permId)]))), roleId, ById(permId))
    ensures Related(Detach(s.rolePermissions, roleId, ResolveAll(PermissionModel, s.permissions, [ById(permId)])), other) == Related(s.rolePermissions, other)
  {
    var ids := ResolveAll(PermissionModel, s.permissions, [ById(permId)]);
    ResolveOne(PermissionModel, s.permissions, ById(permId));
    DetachEffect(s.rolePermissions, roleId, ids, roleId);
    DetachEffect(s.rolePermissions, roleId, ids, other);
  }

  /** Syncing a role's permissions with an Eloquent collection leaves the role
      with none at all. */
  lemma SyncWithCollectionEmptiesRole(s: Store, roleId: int, models: seq<Ref>)
    ensures Related(Sync(s.rolePermissions, roleId, ResolveAll(PermissionModel, s.permissions, Items(Collection(models)))), roleId) == {}
  {
    CollectionResolvesToNothing(PermissionModel, s.permissions, models);
    SyncEffect(s.rolePermissions, roleId, [], roleId);
  }

  /** `getUserIds`: the existing users linked to the role. */
  function GetUserIds(s: Store, roleId: int): (ids: set<int>)
    ensures forall u :: u in ids <==> u in s.users && roleId in Related(s.userRoles, u)
  {
    var ids := set u | u in s.users && (u, roleId) in s.userRoles;
    assert forall u :: roleId in Related(s.userRoles, u) <==> (u, roleId) in s.userRoles by {
      forall u ensures roleId in Related(s.userRoles, u) <==> (u, roleId) in s.userRoles {
        RelatedMember(s.userRoles, u, roleId);
      }
    }
    ids
  }

  /** For an existing role, its user ids are exactly the existing users whose
      `hasRole` test by id succeeds. */
  lemma GetUserIdsAgreesWithHasRole(s: Store, role: Row, u: int)
    requires role in s.roles
    ensures u in GetUserIds(s, role.id) <==> u in s.users && Users.HasRole(s, u, Single(ById(role.id)))
  {
  }
}
