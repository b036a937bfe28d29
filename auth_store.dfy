/** The tables behind the role/permission models: `permissions` and `roles`
    rows, the `role_permissions`, `user_roles` and `user_permissions` pivot
    tables, `temporary_permissions`, and the way model methods turn their
    loosely typed arguments into row ids. */
module AuthStore {
  import opened Common
  import opened TemporaryPermissions

  /** A `permissions` or `roles` row. */
  datatype Row = Row(id: int, name: string, displayName: Option<string>, description: Option<string>)

  /** The model class of an object argument. */
  datatype Kind = RoleModel | PermissionModel | UserModel

  /** One PHP value handed to a model method: a string, an int, a model object
      of some class, or any other value. */
  datatype Ref = ByName(name: string) | ById(id: int) | Model(kind: Kind, id: int, name: string) | OtherValue

  /** A whole argument: a single value, a PHP array of values, or an Eloquent
      collection (an object, so `is_array` is false for it). */
  datatype Arg = Single(ref: Ref) | Array(items: seq<Ref>) | Collection(models: seq<Ref>)

  /** `if (!is_array($x)) $x = [$x];` */
  function Items(a: Arg): seq<Ref> {
    match a
    case Single(r) => [r]
    case Array(items) => items
    case Collection(_) => [OtherValue]
  }

  /** `Model::where('name', $name)->first()`. */
  function FindByName(rows: seq<Row>, name: string): (r: Option<Row>)
    ensures r.Some? ==> r.value in rows && r.value.name == name
    ensures r.None? <==> forall i :: 0 <= i < |rows| ==> rows[i].name != name
  {
    if |rows| == 0 then None
    else if rows[0].name == name then Some(rows[0])
    else FindByName(rows[1..], name)
  }

  /** The id one element contributes: a name is looked up (and dropped when no
      row has it), an int is taken as it is, a model of the expected class gives
      its id, anything else is skipped. */
  function ResolveRef(kind: Kind, rows: seq<Row>, r: Ref): Option<int> {
    match r
    case ByName(n) => (match FindByName(rows, n) case Some(row) => Some(row.id) case None => None)
    case ById(i) => Some(i)
    case Model(k, i, _) => if k == kind then Some(i) else None
    case OtherValue => None
  }

  /** The ids collected by the `foreach` shared by every assign/revoke/sync method. */
  function ResolveAll(kind: Kind, rows: seq<Row>, refs: seq<Ref>): seq<int> {
    if |refs| == 0 then []
    else
      ResolveAll(kind, rows, refs[..|refs| - 1]) +
      (match ResolveRef(kind, rows, refs[|refs| - 1]) case Some(i) => [i] case None => [])
  }

  /** An id is collected exactly when some element of the argument resolves to it. */
  lemma {:induction false} ResolveAllMembers(kind: Kind, rows: seq<Row>, refs: seq<Ref>, id: int)
    ensures id in ResolveAll(kind, rows, refs) <==>
            exists j :: 0 <= j < |refs| && ResolveRef(kind, rows, refs[j]) == Some(id)
  {
    if |refs| > 0 {
      var init := refs[..|refs| - 1];
      ResolveAllMembers(kind, rows, init, id);
      if id in ResolveAll(kind, rows, refs) {
        if id !in ResolveAll(kind, rows, init) {
          assert ResolveRef(kind, rows, refs[|refs| - 1]) == Some(id);
        } else {
          var j :| 0 <= j < |init| && ResolveRef(kind, rows, init[j]) == Some(id);
          assert refs[j] == init[j];
        }
      } else {
        forall j | 0 <= j < |refs| ensures ResolveRef(kind, rows, refs[j]) != Some(id) {
          if j < |init| {
            assert refs[j] == init[j];
          }
        }
      }
    }
  }

  /** A one-element argument collects at most the id of that element. */
  lemma ResolveOne(kind: Kind, rows: seq<Row>, r: Ref)
    ensures ResolveAll(kind, rows, [r]) == match ResolveRef(kind, rows, r) case Some(i) => [i] case None => []
  {
    assert [r][..0] == [];
    assert ResolveAll(kind, rows, []) == [];
  }

  /** An Eloquent collection resolves to no id at all, whatever it holds. */
  lemma CollectionResolvesToNothing(kind: Kind, rows: seq<Row>, models: seq<Ref>)
    ensures ResolveAll(kind, rows, Items(Collection(models))) == []
  {
    assert Items(Collection(models))[..0] == [];
  }

  /** The `foreach` that collects ids, as the model methods run it. */
  method CollectIds(kind: Kind, rows: seq<Row>, arg: Arg) returns (ids: seq<int>)
    ensures ids == ResolveAll(kind, rows, Items(arg))
  {
    var items := Items(arg);
    ids := [];
    var i := 0;
    while i < |items|
      invariant 0 <= i <= |items|
      invariant ids == ResolveAll(kind, rows, items[..i])
    {
      assert items[..i + 1][..i] == items[..i];
      match ResolveRef(kind, rows, items[i]) {
        case Some(id) => ids := ids + [id];
        case None =>
      }
      i := i + 1;
    }
    assert items[..|items|] == items;
  }

  /** The targets a pivot table links to one owner. */
  function Related(rel: set<(int, int)>, owner: int): set<int> {
    set p | p in rel && p.0 == owner :: p.1
  }

  /** `syncWithoutDetaching($ids)`: link the owner to each id. */
  function Attach(rel: set<(int, int)>, owner: int, ids: seq<int>): set<(int, int)> {
    rel + set i | i in ids :: (owner, i)
  }

  /** `detach($ids)`: unlink the owner from each id. */
  function Detach(rel: set<(int, int)>, owner: int, ids: seq<int>): set<(int, int)> {
    rel - set i | i in ids :: (owner, i)
  }

  /** `sync($ids)`: replace the owner's links by the ids. */
  function Sync(rel: set<(int, int)>, owner: int, ids: seq<int>): set<(int, int)> {
    (set p | p in rel && p.0 != owner) + set i | i in ids :: (owner, i)
  }

  lemma RelatedMember(rel: set<(int, int)>, owner: int, t: int)
    ensures t in Related(rel, owner) <==> (owner, t) in rel
  {
    if (owner, t) in rel {
      assert (owner, t).1 == t;
    }
  }

  /** Attaching adds the ids to the owner's links and leaves every other owner alone. */
  lemma AttachEffect(rel: set<(int, int)>, owner: int, ids: seq<int>, x: int)
    ensures Related(Attach(rel, owner, ids), x) ==
            if x == owner then Related(rel, owner) + (set i | i in ids) else Related(rel, x)
  {
    forall t ensures t in Related(Attach(rel, owner, ids), x) <==> t in Related(rel, x) || (x == owner && t in ids) {
      RelatedMember(Attach(rel, owner, ids), x, t);
      RelatedMember(rel, x, t);
    }
  }

  /** Detaching removes the ids from the owner's links and leaves every other owner alone. */
  lemma DetachEffect(rel: set<(int, int)>, owner: int, ids: seq<int>, x: int)
    ensures Related(Detach(rel, owner, ids), x) ==
            if x == owner then Related(rel, owner) - (set i | i in ids) else Related(rel, x)
  {
    forall t ensures t in Related(Detach(rel, owner, ids), x) <==> t in Related(rel, x) && !(x == owner && t in ids) {
      RelatedMember(Detach(rel, owner, ids), x, t);
      RelatedMember(rel, x, t);
    }
  }

  /** Syncing leaves the owner linked to exactly the ids and every other owner alone. */
  lemma SyncEffect(rel: set<(int, int)>, owner: int, ids: seq<int>, x: int)
    ensures Related(Sync(rel, owner, ids), x) == if x == owner then (set i | i in ids) else Related(rel, x)
  {
    forall t ensures t in Related(Sync(rel, owner, ids), x) <==> if x == owner then t in ids else t in Related(rel, x) {
      RelatedMember(Sync(rel, owner, ids), x, t);
      RelatedMember(rel, x, t);
    }
  }

  // ------------------------------------------------------- foreign keys

  /** The first position of `ids` whose insert a pivot's foreign key rejects:
      an id not linked yet (so it is inserted) that names no row of the
      related table. */
  function FirstDangling(ids: seq<int>, linked: set<int>, targets: set<int>): (k: Option<nat>)
    ensures k.Some? ==> k.value < |ids| && ids[k.value] !in linked && ids[k.value] !in targets
    ensures k.Some? ==> forall j :: 0 <= j < k.value ==> ids[j] in linked || ids[j] in targets
    ensures k.None? <==> forall j :: 0 <= j < |ids| ==> ids[j] in linked || ids[j] in targets
  {
    if |ids| == 0 then None
    else if ids[0] !in linked && ids[0] !in targets then Some(0)
    else
      match FirstDangling(ids[1..], linked, targets)
      case None => None
      case Some(k) => Some(k + 1)
  }

  /** `syncWithoutDetaching($ids)` under the pivot's foreign key: the ids not
      yet linked are inserted one at a time, in order, and the first that
      names no row of the related table (`targets`) is rejected, after the
      inserts before it. The pivot afterwards, and the rejected id if any. */
  function AttachChecked(rel: set<(int, int)>, owner: int, ids: seq<int>, targets: set<int>): (r: (set<(int, int)>, Option<int>))
    ensures r.1.None? <==> forall j :: 0 <= j < |ids| ==> ids[j] in Related(rel, owner) || ids[j] in targets
    ensures r.1.None? ==> r.0 == Attach(rel, owner, ids)
    ensures r.1.Some? ==> r.1.value in ids && r.1.value !in targets && r.1.value !in Related(rel, owner)
    ensures rel <= r.0 <= Attach(rel, owner, ids)
    ensures forall p :: p in r.0 && p !in rel ==> p.0 == owner && p.1 in targets
  {
    match FirstDangling(ids, Related(rel, owner), targets)
    case None =>
      NewLinksAreRows(rel, owner, ids, targets);
      (Attach(rel, owner, ids), None)
    case Some(k) =>
      NewLinksAreRows(rel, owner, ids[..k], targets);
      assert ids[k] in ids;
      (Attach(rel, owner, ids[..k]), Some(ids[k]))
  }

  /** `sync($ids)` under the pivot's foreign key: the owner's links to other
      ids are deleted first, then the new ids are inserted as by
      `AttachChecked`, stopping at the first one the foreign key rejects. */
  function SyncChecked(rel: set<(int, int)>, owner: int, ids: seq<int>, targets: set<int>): (r: (set<(int, int)>, Option<int>))
    ensures r.1.None? <==> forall j :: 0 <= j < |ids| ==> ids[j] in Related(rel, owner) || ids[j] in targets
    ensures r.1.None? ==> r.0 == Sync(rel, owner, ids)
    ensures r.1.Some? ==> r.1.value in ids && r.1.value !in targets && r.1.value !in Related(rel, owner)
    ensures forall p :: p in r.0 && p !in rel ==> p.0 == owner && p.1 in targets
    ensures forall p :: p in r.0 && p.0 == owner ==> p.1 in ids
    ensures forall p: (int, int) :: p.0 != owner ==> (p in r.0 <==> p in rel)
  {
    var kept := set p | p in rel && (p.0 != owner || p.1 in ids);
    match FirstDangling(ids, Related(rel, owner), targets)
    case None =>
      NewLinksAreRows(rel, owner, ids, targets);
      (Sync(rel, owner, ids), None)
    case Some(k) =>
      NewLinksAreRows(kept, owner, ids[..k], targets);
      assert ids[k] in ids;
      (Attach(kept, owner, ids[..k]), Some(ids[k]))
  }

  /** A pivot whose every link names a row of the related table keeps that
      property through a checked attach or sync, whatever the ids. */
  lemma CheckedKeepsReferences(rel: set<(int, int)>, owner: int, ids: seq<int>, targets: set<int>)
    requires forall p :: p in rel ==> p.1 in targets
    ensures forall p :: p in AttachChecked(rel, owner, ids, targets).0 ==> p.1 in targets
    ensures forall p :: p in SyncChecked(rel, owner, ids, targets).0 ==> p.1 in targets
  {
  }

  /** Ids that are linked already or name rows add only links to rows. */
  lemma NewLinksAreRows(rel: set<(int, int)>, owner: int, ids: seq<int>, targets: set<int>)
    requires forall j :: 0 <= j < |ids| ==> ids[j] in Related(rel, owner) || ids[j] in targets
    ensures forall p :: p in Attach(rel, owner, ids) && p !in rel ==> p.0 == owner && p.1 in targets
  {
    forall p | p in Attach(rel, owner, ids) && p !in rel ensures p.0 == owner && p.1 in targets {
      var i :| i in ids && p == (owner, i);
      RelatedMember(rel, owner, i);
    }
  }

  /** The whole authorization database at one moment. */
  datatype Store = Store(
    permissions: seq<Row>,
    roles: seq<Row>,
    /** User ids in primary-key order. */
    users: seq<int>,
    /** `role_permissions` as (role id, permission id). */
    rolePermissions: set<(int, int)>,
    /** `user_roles` as (user id, role id). */
    userRoles: set<(int, int)>,
    /** `user_permissions` as (user id, permission id). */
    userPermissions: set<(int, int)>,
    temporaryPermissions: seq<TemporaryPermission>,
    nextPermissionId: int,
    nextRoleId: int)

  /** The ids of the rows of a table. */
  function Ids(rows: seq<Row>): set<int> {
    set r | r in rows :: r.id
  }

  /** The names of the rows of a table whose ids lie in `ids` (a join with a pivot). */
  function NamesOf(rows: seq<Row>, ids: set<int>): set<string> {
    set r | r in rows && r.id in ids :: r.name
  }

  /** The rows of a table whose ids lie in `ids`, in table order. */
  function RowsIn(rows: seq<Row>, ids: set<int>): (r: seq<Row>)
    ensures forall x :: x in r <==> x in rows && x.id in ids
  {
    if |rows| == 0 then []
    else (if rows[0].id in ids then [rows[0]] else []) + RowsIn(rows[1..], ids)
  }

  /** Ids and names of a table are distinct and below its next auto-increment id. */
  predicate TableValid(rows: seq<Row>, nextId: int) {
    (forall i, j :: 0 <= i < |rows| && 0 <= j < |rows| && i != j ==> rows[i].id != rows[j].id && rows[i].name != rows[j].name) &&
    forall i :: 0 <= i < |rows| ==> rows[i].id < nextId
  }

  /** `firstOrCreate(['name' => $name], $values)`: the table and counter
      after it, and the row it returns. */
  function FirstOrCreate(rows: seq<Row>, nextId: int, name: string, displayName: Option<string>, description: Option<string>)
    : (r: (seq<Row>, int, Row))
    ensures r.2 in r.0 && r.2.name == name
    ensures FindByName(rows, name).Some? ==> r == (rows, nextId, FindByName(rows, name).value)
    ensures FindByName(rows, name).None? ==>
              r == (rows + [Row(nextId, name, displayName, description)], nextId + 1, Row(nextId, name, displayName, description))
  {
    match FindByName(rows, name)
    case Some(row) => (rows, nextId, row)
    case None =>
      var row := Row(nextId, name, displayName, description);
      (rows + [row], nextId + 1, row)
  }

  /** `firstOrCreate` keeps a table valid, keeps every existing row, and a
      second call with the same name changes nothing. */
  lemma FirstOrCreateLaws(rows: seq<Row>, nextId: int, name: string, displayName: Option<string>, description: Option<string>)
    requires TableValid(rows, nextId)
    ensures var (rows', nextId', _) := FirstOrCreate(rows, nextId, name, displayName, description);
      TableValid(rows', nextId') && rows <= rows' &&
      FindByName(rows', name).Some? &&
      FirstOrCreate(rows', nextId', name, displayName, description).0 == rows'
  {
    var (rows', nextId', row) := FirstOrCreate(rows, nextId, name, displayName, description);
    if FindByName(rows, name).None? {
      forall i, j | 0 <= i < |rows'| && 0 <= j < |rows'| && i != j
        ensures rows'[i].id != rows'[j].id && rows'[i].name != rows'[j].name
      {
        if i == |rows| {
          assert rows'[j] == rows[j];
        } else if j == |rows| {
          assert rows'[i] == rows[i];
        }
      }
    }
    assert rows'[|rows'| - 1] in rows' || FindByName(rows, name).Some?;
  }

  /** `Model::whereIn('name', $names)->get()`: the matching rows as model
      objects of the given class, in table order. */
  function WhereInGet(kind: Kind, rows: seq<Row>, names: set<string>): (r: seq<Ref>)
    ensures forall x :: x in r <==> exists row :: row in rows && row.name in names && x == Model(kind, row.id, row.name)
  {
    if |rows| == 0 then []
    else (if rows[0].name in names then [Model(kind, rows[0].id, rows[0].name)] else []) + WhereInGet(kind, rows[1..], names)
  }

  /** The ids of the rows whose names are in `names`. */
  function NamedIds(rows: seq<Row>, names: set<string>): set<int> {
    set r | r in rows && r.name in names :: r.id
  }

  /** Model objects in a PHP array resolve to exactly their own ids. */
  lemma WhereInGetResolves(kind: Kind, rows: seq<Row>, names: set<string>, id: int)
    ensures id in ResolveAll(kind, rows, Items(Array(WhereInGet(kind, rows, names)))) <==> id in NamedIds(rows, names)
  {
    var refs := WhereInGet(kind, rows, names);
    ResolveAllMembers(kind, rows, refs, id);
    if id in NamedIds(rows, names) {
      var row :| row in rows && row.name in names && row.id == id;
      assert Model(kind, row.id, row.name) in refs;
      var j :| 0 <= j < |refs| && refs[j] == Model(kind, row.id, row.name);
      assert ResolveRef(kind, rows, refs[j]) == Some(id);
    }
    if id in ResolveAll(kind, rows, refs) {
      var j :| 0 <= j < |refs| && ResolveRef(kind, rows, refs[j]) == Some(id);
      assert refs[j] in refs;
      var row :| row in rows && row.name in names && refs[j] == Model(kind, row.id, row.name);
      assert row in rows && row.name in names && row.id == id;
    }
  }

  /** The rows of a `whereIn` query, handed over as a PHP array, resolve to
      ids of existing rows only, so no foreign key rejects them. */
  lemma QueriedIdsAreRows(kind: Kind, rows: seq<Row>, names: set<string>)
    ensures var ids := ResolveAll(kind, rows, Items(Array(WhereInGet(kind, rows, names))));
      forall j :: 0 <= j < |ids| ==> ids[j] in Ids(rows)
  {
    var ids := ResolveAll(kind, rows, Items(Array(WhereInGet(kind, rows, names))));
    forall j | 0 <= j < |ids| ensures ids[j] in Ids(rows) {
      WhereInGetResolves(kind, rows, names, ids[j]);
      var row :| row in rows && row.name in names && row.id == ids[j];
    }
  }

  /** The rows of a `whereIn` query, passed as a PHP array, all name rows, so
      a checked sync with them is never rejected. */
  lemma QueriedSyncAccepted(rel: set<(int, int)>, owner: int, kind: Kind, rows: seq<Row>, names: set<string>)
    ensures SyncChecked(rel, owner, ResolveAll(kind, rows, Items(Wrap(AsArray, WhereInGet(kind, rows, names)))), Ids(rows)).1.None?
  {
    QueriedIdsAreRows(kind, rows, names);
  }

  /** Syncing with the rows of a `whereIn` query passed as a PHP array links
      the owner to exactly those rows; passed as the Eloquent collection the
      query returns, it links the owner to nothing. */
  lemma SyncWithQueryResult(rel: set<(int, int)>, owner: int, kind: Kind, rows: seq<Row>, names: set<string>)
    ensures Related(Sync(rel, owner, ResolveAll(kind, rows, Items(Array(WhereInGet(kind, rows, names))))), owner) == NamedIds(rows, names)
    ensures Related(Sync(rel, owner, ResolveAll(kind, rows, Items(Collection(WhereInGet(kind, rows, names))))), owner) == {}
  {
    var ids := ResolveAll(kind, rows, Items(Array(WhereInGet(kind, rows, names))));
    SyncEffect(rel, owner, ids, owner);
    forall id ensures id in ids <==> id in NamedIds(rows, names) {
      WhereInGetResolves(kind, rows, names, id);
    }
    CollectionResolvesToNothing(kind, rows, WhereInGet(kind, rows, names));
    SyncEffect(rel, owner, [], owner);
  }

  /** How a caller hands the rows of a `whereIn(...)->get()` query to a
      sync: as the Eloquent collection the query returns, or as a PHP array. */
  datatype Form = AsArray | AsCollection

  function Wrap(form: Form, refs: seq<Ref>): (a: Arg)
    ensures Items(a) == if form == AsArray then refs else [OtherValue]
  {
    if form == AsArray then Array(refs) else Collection(refs)
  }

  /** The permission ids a role is left with after being synced with the
      permission rows named in `names`, handed over in the given form. */
  function Granted(rows: seq<Row>, names: set<string>, form: Form): set<int> {
    if form == AsArray then NamedIds(rows, names) else {}
  }

  /** `syncPermissions(Permission::whereIn('name', $names)->get())` on the
      owner's pivot rows. */
  function SyncNamed(rel: set<(int, int)>, owner: int, rows: seq<Row>, names: set<string>, form: Form): set<(int, int)> {
    Sync(rel, owner, ResolveAll(PermissionModel, rows, Items(Wrap(form, WhereInGet(PermissionModel, rows, names)))))
  }

  /** The synced owner holds exactly the granted ids; every other owner keeps its links. */
  lemma SyncNamedEffect(rel: set<(int, int)>, owner: int, rows: seq<Row>, names: set<string>, form: Form, x: int)
    ensures Related(SyncNamed(rel, owner, rows, names, form), x) == if x == owner then Granted(rows, names, form) else Related(rel, x)
  {
    var ids := ResolveAll(PermissionModel, rows, Items(Wrap(form, WhereInGet(PermissionModel, rows, names))));
    SyncWithQueryResult(rel, owner, PermissionModel, rows, names);
    SyncEffect(rel, owner, ids, x);
  }

  /** Syncing an owner with what it already holds changes nothing. */
  lemma SyncNamedAgain(rel: set<(int, int)>, owner: int, rows: seq<Row>, names: set<string>, form: Form)
    requires Related(rel, owner) == Granted(rows, names, form)
    ensures SyncNamed(rel, owner, rows, names, form) == rel
  {
    var r := SyncNamed(rel, owner, rows, names, form);
    forall p: (int, int) ensures p in r <==> p in rel {
      SyncNamedEffect(rel, owner, rows, names, form, p.0);
      RelatedMember(r, p.0, p.1);
      RelatedMember(rel, p.0, p.1);
    }
  }

  /** With unique names, the row a table holds is the one found by its name. */
  lemma FindUnique(rows: seq<Row>, nextId: int, row: Row)
    requires TableValid(rows, nextId) && row in rows
    ensures FindByName(rows, row.name) == Some(row)
  {
    var f := FindByName(rows, row.name).value;
    var i :| 0 <= i < |rows| && rows[i] == row;
    var j :| 0 <= j < |rows| && rows[j] == f;
  }

  /** The mutable database the models read and write. */
  class AuthDb {
    var permissions: seq<Row>
    var roles: seq<Row>
    var users: seq<int>
    var rolePermissions: set<(int, int)>
    var userRoles: set<(int, int)>
    var userPermissions: set<(int, int)>
    var temporaryPermissions: seq<TemporaryPermission>
    var nextPermissionId: int
    var nextRoleId: int

    function State(): Store
      reads this
    {
      Store(permissions, roles, users, rolePermissions, userRoles, userPermissions,
            temporaryPermissions, nextPermissionId, nextRoleId)
    }

    /** A database holding the given users and nothing else; auto-increment ids start at 1. */
    constructor (users: seq<int>)
      ensures State() == Store([], [], users, {}, {}, {}, [], 1, 1)
    {
      this.permissions := [];
      this.roles := [];
      this.users := users;
      this.rolePermissions := {};
      this.userRoles := {};
      this.userPermissions := {};
      this.temporaryPermissions := [];
      this.nextPermissionId := 1;
      this.nextRoleId := 1;
    }
  }
}
