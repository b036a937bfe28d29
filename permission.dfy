/** The `Permission` model: who holds it, and the mutators of the pivot tables
    seen from the permission. */
module Permissions {
  import opened Common
  import opened AuthStore
  import Users

  /** Link each id, as the left column, to `target` in a pivot table. */
  function AttachOwners(rel: set<(int, int)>, target: int, ids: seq<int>): set<(int, int)> {
    rel + set i | i in ids :: (i, target)
  }

  /** The ids linked, as the left column, to `target`. */
  function Holders(rel: set<(int, int)>, target: int): set<int> {
    set p | p in rel && p.1 == target :: p.0
  }

  /** `syncWithoutDetaching($ids)` seen from the right column: the ids not
      yet linked to `target` are inserted in order, and the first that names
      no row of their table (`owners`) is rejected by the foreign key, after
      the inserts before it. */
  function AttachOwnersChecked(rel: set<(int, int)>, target: int, ids: seq<int>, owners: set<int>): (r: (set<(int, int)>, Option<int>))
    ensures r.1.None? <==> forall j :: 0 <= j < |ids| ==> ids[j] in Holders(rel, target) || ids[j] in owners
    ensures r.1.None? ==> r.0 == AttachOwners(rel, target, ids)
    ensures r.1.Some? ==> r.1.value in ids && r.1.value !in owners && r.1.value !in Holders(rel, target)
    ensures rel <= r.0 <= AttachOwners(rel, target, ids)
    ensures forall p :: p in r.0 && p !in rel ==> p.1 == target && p.0 in owners
  {
    match FirstDangling(ids, Holders(rel, target), owners)
    case None =>
      NewHoldersAreRows(rel, target, ids, owners);
      (AttachOwners(rel, target, ids), None)
    case Some(k) =>
      NewHoldersAreRows(rel, target, ids[..k], owners);
      assert ids[k] in ids;
      (AttachOwners(rel, target, ids[..k]), Some(ids[k]))
  }

  lemma NewHoldersAreRows(rel: set<(int, int)>, target: int, ids: seq<int>, owners: set<int>)
    requires forall j :: 0 <= j < |ids| ==> ids[j] in Holders(rel, target) || ids[j] in owners
    ensures forall p :: p in AttachOwners(rel, target, ids) && p !in rel ==> p.1 == target && p.0 in owners
  {
    forall p | p in AttachOwners(rel, target, ids) && p !in rel ensures p.1 == target && p.0 in owners {
      var i :| i in ids && p == (i, target);
    }
  }

  /** `getAllUsers`: the existing users holding the permission directly or
      through an existing role. */
  function GetAllUsers(s: Store, permId: int): set<int> {
    set u | u in s.users &&
      ((u, permId) in s.userPermissions ||
       exists r :: r in s.roles && (r.id, permId) in s.rolePermissions && (u, r.id) in s.userRoles)
  }

  /** The users `getAllUsers` lists are exactly the existing users for whom the
      user-side checks `hasDirectPermission` or `hasPermissionViaRole` succeed
      on the same permission object. */
  lemma GetAllUsersAgreesWithChecks(s: Store, p: Row, u: int)
    requires p in s.permissions && p.id != 0
    ensures u in GetAllUsers(s, p.id) <==>
            u in s.users &&
            (Users.HasDirectPermission(s, u, Model(PermissionModel, p.id, p.name)) ||
             Users.ViaRole(s, u, Model(PermissionModel, p.id, p.name)))
  {
    var ref := Model(PermissionModel, p.id, p.name);
    RelatedMember(s.userPermissions, u, p.id);
    if exists r :: r in s.roles && (r.id, p.id) in s.rolePermissions && (u, r.id) in s.userRoles {
      var r :| r in s.roles && (r.id, p.id) in s.rolePermissions && (u, r.id) in s.userRoles;
      RelatedMember(s.userRoles, u, r.id);
      RelatedMember(s.rolePermissions, r.id, p.id);
      assert r in Users.UserRoles(s, u);
      assert Users.RoleGrants(s, r, Some(p.id), None);
    }
    if Users.ViaRole(s, u, ref) {
      var r :| r in Users.UserRoles(s, u) && Users.RoleGrants(s, r, Some(p.id), None);
      RelatedMember(s.userRoles, u, r.id);
      RelatedMember(s.rolePermissions, r.id, p.id);
    }
  }

  /** `assignRole` on a permission: attach the resolved role ids to it. */
  method AssignRole(db: AuthDb, permId: int, roles: Arg) returns (rejected: Option<int>)
    modifies db`rolePermissions
    ensures var ids := ResolveAll(RoleModel, old(db.roles), Items(roles));
      var r := if ids == [] then (old(db.rolePermissions), None)
               else AttachOwnersChecked(old(db.rolePermissions), permId, ids, Ids(old(db.roles)));
      db.State() == old(db.State()).(rolePermissions := r.0) && rejected == r.1
  {
    var ids := CollectIds(RoleModel, db.roles, roles);
    rejected := None;
    if ids != [] {
      var r := AttachOwnersChecked(db.rolePermissions, permId, ids, Ids(db.roles));
      db.rolePermissions, rejected := r.0, r.1;
    }
  }

  /** Giving a role a permission and giving a permission a role write the same row. */
  lemma AssignRoleMirrorsGivePermission(rel: set<(int, int)>, roleId: int, permId: int)
    ensures AttachOwners(rel, permId, [roleId]) == Attach(rel, roleId, [permId])
  {
    assert (set i | i in [roleId] :: (i, permId)) == {(roleId, permId)};
    assert (set i | i in [permId] :: (roleId, i)) == {(roleId, permId)};
  }

  /** `assignUsers`: attach users given as ints or User objects; strings and
      other values are skipped. Resolving against an empty table drops exactly
      the names, so the shared collector computes these ids. */
  method AssignUsers(db: AuthDb, permId: int, users: Arg) returns (rejected: Option<int>)
    modifies db`userPermissions
    ensures var ids := ResolveAll(UserModel, [], Items(users));
      var r := if ids == [] then (old(db.userPermissions), None)
               else AttachOwnersChecked(old(db.userPermissions), permId, ids, set u | u in old(db.users));
      db.State() == old(db.State()).(userPermissions := r.0) && rejected == r.1
  {
    var ids := CollectIds(UserModel, [], users);
    rejected := None;
    if ids != [] {
      var r := AttachOwnersChecked(db.userPermissions, permId, ids, set u | u in db.users);
      db.userPermissions, rejected := r.0, r.1;
    }
  }

  /** `assignUsers` takes ints and User objects and nothing else. */
  lemma AssignUsersTakesIdsAndUsers(r: Ref)
    ensures ResolveRef(UserModel, [], r) ==
            match r
            case ById(i) => Some(i)
            case Model(k, i, _) => if k == UserModel then Some(i) else None
            case _ => None
  {
  }
}
