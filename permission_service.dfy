/** The permission service: a cache of the `permissions` table keyed by name,
    a per-user cache of role names, creation of permissions and roles, and two
    authorization entry points. */
module PermissionService {
  import opened Common
  import opened Php
  import opened AuthStore
  import opened Users

  /** `keyBy('name')`: a map from each name to a row with that name; when two
      rows share a name the later one wins. */
  function KeyBy(rows: seq<Row>): (m: map<string, Row>)
    ensures forall n :: n in m ==> m[n] in rows && m[n].name == n
  {
    if |rows| == 0 then map[]
    else KeyBy(rows[..|rows| - 1])[rows[|rows| - 1].name := rows[|rows| - 1]]
  }

  /** Every name of the table is a key of `keyBy('name')`, and only those. */
  lemma {:induction false} KeyByKeys(rows: seq<Row>, n: string)
    ensures n in KeyBy(rows) <==> exists i :: 0 <= i < |rows| && rows[i].name == n
  {
    if |rows| > 0 {
      var init := rows[..|rows| - 1];
      KeyByKeys(init, n);
      if n in KeyBy(init) {
        var i :| 0 <= i < |init| && init[i].name == n;
        assert rows[i] == init[i];
      }
      if exists i :: 0 <= i < |rows| && rows[i].name == n {
        var i :| 0 <= i < |rows| && rows[i].name == n;
        if i < |init| {
          assert init[i] == rows[i];
        }
      }
    }
  }

  /** No two rows of the table share a name (the unique index on `name`). */
  predicate DistinctNames(rows: seq<Row>) {
    forall i, j :: 0 <= i < |rows| && 0 <= j < |rows| && rows[i].name == rows[j].name ==> i == j
  }

  /** With unique names the cached lookup finds the same row as a query by name. */
  lemma KeyByAgreesWithQuery(rows: seq<Row>, n: string)
    requires DistinctNames(rows)
    ensures n in KeyBy(rows) <==> FindByName(rows, n).Some?
    ensures n in KeyBy(rows) ==> KeyBy(rows)[n] == FindByName(rows, n).value
  {
    KeyByKeys(rows, n);
    if n in KeyBy(rows) {
      var a := KeyBy(rows)[n];
      var b := FindByName(rows, n).value;
      var i :| 0 <= i < |rows| && rows[i] == a;
      var j :| 0 <= j < |rows| && rows[j] == b;
      assert rows[i].name == rows[j].name;
    }
  }

  /** The row a create call would insert: `name` is NOT NULL and unique. */
  datatype CreateError = NameMissing | DuplicateName

  /** The fillable attributes a create call may set; everything else is dropped. */
  datatype Attributes = Attributes(name: Option<string>, displayName: Option<string>, description: Option<string>)

  /** `Model::create($data)` on `permissions` or `roles`: a row with the next
      auto-increment id, or the integrity error the database raises. */
  function Created(rows: seq<Row>, nextId: int, data: Attributes): (r: Result<Row, CreateError>)
    ensures r.Ok? <==> data.name.Some? && forall i :: 0 <= i < |rows| ==> rows[i].name != data.name.value
    ensures r.Ok? ==> r.value.id == nextId && Some(r.value.name) == data.name
    ensures r.Ok? ==> r.value.displayName == data.displayName && r.value.description == data.description
  {
    match data.name
    case None => Err(NameMissing)
    case Some(n) =>
      if FindByName(rows, n).Some? then Err(DuplicateName)
      else Ok(Row(nextId, n, data.displayName, data.description))
  }

  /** Inserting a created row keeps the names unique. */
  lemma CreatedKeepsNamesDistinct(rows: seq<Row>, nextId: int, data: Attributes)
    requires DistinctNames(rows) && Created(rows, nextId, data).Ok?
    ensures DistinctNames(rows + [Created(rows, nextId, data).value])
  {
  }

  /** The role names `$user->roles()->pluck('name')` returns, in table order. */
  function PluckNames(rows: seq<Row>): (names: seq<string>)
    ensures |names| == |rows|
    ensures forall i :: 0 <= i < |rows| ==> names[i] == rows[i].name
  {
    if |rows| == 0 then [] else [rows[0].name] + PluckNames(rows[1..])
  }

  /** The names cached for a user are exactly the names of the roles they hold. */
  lemma RoleCacheHoldsRoleNames(s: Store, u: int, n: string)
    ensures n in PluckNames(RowsIn(s.roles, Related(s.userRoles, u))) <==> n in RoleNames(s, u)
  {
    var rows := RowsIn(s.roles, Related(s.userRoles, u));
    var names := PluckNames(rows);
    if n in names {
      var i :| 0 <= i < |names| && names[i] == n;
      assert rows[i] in rows;
    }
    if n in RoleNames(s, u) {
      var r :| r in s.roles && r.id in Related(s.userRoles, u) && r.name == n;
      assert r in rows;
      var i :| 0 <= i < |rows| && rows[i] == r;
      assert names[i] == n;
    }
  }

  /** `userCan`: `hasPermissionTo` by name with the given conditions. */
  predicate UserCan(s: Store, u: int, permission: string, conditions: map<string, Scalar>, now: int) {
    HasPermissionTo(s, u, ByName(permission), conditions, now)
  }

  /** The conditions `checkPolicy` passes on: `is_owner` is set to true when
      the model says the user owns it. */
  function PolicyConditions(conditions: map<string, Scalar>, owns: bool): (c: map<string, Scalar>)
    ensures owns ==> "is_owner" in c && c["is_owner"] == Bool(true)
    ensures forall k :: k in conditions && (k != "is_owner" || !owns) ==> k in c && c[k] == conditions[k]
    ensures forall k :: k in c ==> k in conditions || (owns && k == "is_owner")
  {
    if owns then conditions["is_owner" := Bool(true)] else conditions
  }

  /** `checkPolicy`: a super-admin passes; otherwise `hasPermissionTo` with
      the conditions, marked as the owner's when `owns` holds. `owns` stands
      for "a model was given, it has `isOwnedBy` and it returns true". */
  predicate CheckPolicy(s: Store, u: int, permission: string, owns: bool, conditions: map<string, Scalar>, now: int) {
    HasRole(s, u, Single(ByName("super-admin"))) ||
    HasPermissionTo(s, u, ByName(permission), PolicyConditions(conditions, owns), now)
  }

  /** A super-admin passes every policy check; anyone else passes exactly
      when `userCan` with the adjusted conditions does. */
  lemma CheckPolicyMeaning(s: Store, u: int, permission: string, owns: bool, conditions: map<string, Scalar>, now: int)
    ensures "super-admin" in RoleNames(s, u) ==> CheckPolicy(s, u, permission, owns, conditions, now)
    ensures "super-admin" !in RoleNames(s, u) ==>
            (CheckPolicy(s, u, permission, owns, conditions, now) <==> UserCan(s, u, permission, PolicyConditions(conditions, owns), now))
  {
    assert '|' !in "super-admin";
  }

  /** Ownership only widens what a policy check allows when the caller did
      not already say who the owner is. */
  lemma OwnershipOnlyWidens(s: Store, u: int, permission: string, conditions: map<string, Scalar>, now: int)
    requires "is_owner" !in conditions
    requires CheckPolicy(s, u, permission, false, conditions, now)
    ensures CheckPolicy(s, u, permission, true, conditions, now)
  {
    if !HasRole(s, u, Single(ByName("super-admin"))) &&
       !HasDirectPermission(s, u, ByName(permission)) && !ViaRole(s, u, ByName(permission)) {
      var i :| 0 <= i < |s.temporaryPermissions| && Grants(s.temporaryPermissions[i], u, permission, conditions, now);
      TemporaryPermissions.MatchesMonotone(s.temporaryPermissions[i].conditions, conditions, PolicyConditions(conditions, true));
      assert Grants(s.temporaryPermissions[i], u, permission, PolicyConditions(conditions, true), now);
    }
  }

  /** The service with its two cache entries. */
  class Service {
    /** The `permissions` cache entry, absent until first filled. */
    var permissionCache: Option<map<string, Row>>
    /** The `user:{id}:roles` cache entries. */
    var roleCache: map<int, seq<string>>

    constructor ()
      ensures permissionCache == None && roleCache == map[]
    {
      permissionCache := None;
      roleCache := map[];
    }

    /** `cachePermissions`: store the whole table keyed by name. */
    method CachePermissions(db: AuthDb)
      modifies this`permissionCache
      ensures permissionCache == Some(KeyBy(db.permissions))
    {
      permissionCache := Some(KeyBy(db.permissions));
    }

    /** `getPermission`: fill the cache if it is empty, then look the name up
        in the cache, which may be older than the table. */
    method GetPermission(db: AuthDb, name: string) returns (r: Option<Row>)
      modifies this`permissionCache
      ensures old(permissionCache).Some? ==> permissionCache == old(permissionCache)
      ensures old(permissionCache).None? ==> permissionCache == Some(KeyBy(db.permissions))
      ensures permissionCache.Some?
      ensures r.Some? <==> name in permissionCache.value
      ensures r.Some? ==> r.value == permissionCache.value[name]
    {
      if permissionCache.None? {
        permissionCache := Some(KeyBy(db.permissions));
      }
      var m := permissionCache.value;
      if name in m {
        r := Some(m[name]);
      } else {
        r := None;
      }
    }

    /** `refreshPermissionCache`: forget, then cache the table again. */
    method RefreshPermissionCache(db: AuthDb)
      modifies this`permissionCache
      ensures permissionCache == Some(KeyBy(db.permissions))
    {
      permissionCache := None;
      CachePermissions(db);
    }

    /** `refreshUserRoleCache`: store the names of the user's roles. */
    method RefreshUserRoleCache(db: AuthDb, u: int)
      modifies this`roleCache
      ensures roleCache == old(roleCache)[u := PluckNames(RowsIn(db.roles, Related(db.userRoles, u)))]
    {
      roleCache := roleCache - {u};
      roleCache := roleCache[u := PluckNames(RowsIn(db.roles, Related(db.userRoles, u)))];
    }

    /** `createPermission`: insert the row, then refresh the cache. */
    method CreatePermission(db: AuthDb, data: Attributes) returns (r: Result<Row, CreateError>)
      modifies db`permissions, db`nextPermissionId, this`permissionCache
      ensures r == Created(old(db.permissions), old(db.nextPermissionId), data)
      ensures r.Err? ==> db.permissions == old(db.permissions) && db.nextPermissionId == old(db.nextPermissionId)
                         && permissionCache == old(permissionCache)
      ensures r.Ok? ==> db.permissions == old(db.permissions) + [r.value] && db.nextPermissionId == old(db.nextPermissionId) + 1
                        && permissionCache == Some(KeyBy(db.permissions))
    {
      r := Created(db.permissions, db.nextPermissionId, data);
      if r.Ok? {
        db.permissions := db.permissions + [r.value];
        db.nextPermissionId := db.nextPermissionId + 1;
        RefreshPermissionCache(db);
      }
    }

    /** `createRole`: insert the row; no cache is touched. */
    method CreateRole(db: AuthDb, data: Attributes) returns (r: Result<Row, CreateError>)
      modifies db`roles, db`nextRoleId
      ensures r == Created(old(db.roles), old(db.nextRoleId), data)
      ensures r.Err? ==> db.roles == old(db.roles) && db.nextRoleId == old(db.nextRoleId)
      ensures r.Ok? ==> db.roles == old(db.roles) + [r.value] && db.nextRoleId == old(db.nextRoleId) + 1
    {
      r := Created(db.roles, db.nextRoleId, data);
      if r.Ok? {
        db.roles := db.roles + [r.value];
        db.nextRoleId := db.nextRoleId + 1;
      }
    }
  }

  /** After `createPermission` the new row is what the cache returns for its name. */
  lemma CreatedPermissionIsCached(rows: seq<Row>, row: Row)
    ensures row.name in KeyBy(rows + [row]) && KeyBy(rows + [row])[row.name] == row
  {
    assert (rows + [row])[..|rows + [row]| - 1] == rows;
  }

  /** A cache filled before a row was inserted some other way does not know it. */
  lemma StaleCacheMissesNewName(rows: seq<Row>, row: Row)
    requires forall i :: 0 <= i < |rows| ==> rows[i].name != row.name
    ensures row.name !in KeyBy(rows) && row.name in KeyBy(rows + [row])
  {
    KeyByKeys(rows, row.name);
    CreatedPermissionIsCached(rows, row);
  }
}
