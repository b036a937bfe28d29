/** Permission groups: the fixed grouping of permission names, their
    descriptions, lookups over them, and creating the grouped permissions
    that are missing from the table. */
module PermissionGroupService {
  import opened Common
  import opened AuthStore

  /** The groups in their declared order. */
  const Groups: seq<(string, seq<string>)> := [
    ("content", ["create_post", "edit_post", "delete_post", "publish_post", "edit_others_posts",
                 "delete_others_posts", "edit_published_post", "edit_categories", "edit_tags"]),
    ("users", ["list_users", "create_user", "edit_user", "delete_user"]),
    ("roles", ["assign_roles", "create_role", "edit_role", "delete_role"]),
    ("admin", ["access_admin", "manage_settings"])
  ]

  /** The descriptions of the grouped permission names. */
  const GroupedDescriptions: map<string, string> := map[
    "create_post" := "创建文章", "edit_post" := "编辑自己的文章", "delete_post" := "删除自己的文章",
    "publish_post" := "发布文章", "edit_others_posts" := "编辑他人的文章", "delete_others_posts" := "删除他人的文章",
    "edit_published_post" := "编辑已发布的文章", "edit_categories" := "管理分类", "edit_tags" := "管理标签",
    "list_users" := "查看用户列表", "create_user" := "创建用户", "edit_user" := "编辑用户", "delete_user" := "删除用户",
    "assign_roles" := "分配角色和权限", "create_role" := "创建角色", "edit_role" := "编辑角色", "delete_role" := "删除角色",
    "access_admin" := "访问管理后台", "manage_settings" := "管理站点设置"]

  /** The descriptions kept for the older permission names. */
  const LegacyDescriptions: map<string, string> := map[
    "edit_own_post" := "编辑自己的文章", "delete_own_post" := "删除自己的文章", "edit_others_post" := "编辑他人的文章",
    "delete_others_post" := "删除他人的文章", "manage_categories" := "管理分类", "manage_tags" := "管理标签",
    "moderate_comments" := "审核评论", "approve_posts" := "审批文章", "view_admin_dashboard" := "查看管理仪表盘",
    "manage_options" := "管理选项设置", "view_all_posts" := "查看所有文章", "restore_posts" := "恢复已删除文章",
    "permanently_delete_posts" := "永久删除文章", "manage_media" := "管理媒体文件", "import_content" := "导入内容",
    "export_content" := "导出内容", "manage_plugins" := "管理插件", "manage_themes" := "管理主题",
    "update_core" := "更新核心", "create_pages" := "创建页面", "edit_pages" := "编辑页面", "delete_pages" := "删除页面",
    "publish_pages" := "发布页面", "edit_others_pages" := "编辑他人页面", "delete_others_pages" := "删除他人页面",
    "create_comments" := "创建评论", "edit_comments" := "编辑评论", "delete_comments" := "删除评论"]

  /** The description of each known permission name. The source's single
      array repeats no name, so the grouped part is simply laid over the
      older one. */
  const Descriptions: map<string, string> := LegacyDescriptions + GroupedDescriptions

  /** The display name of each group. */
  const GroupDisplayNames: map<string, string> :=
    map["content" := "内容管理", "users" := "用户管理", "roles" := "角色管理", "admin" := "系统管理"]

  /** `getPermissionDescription`: the description, or the name itself. */
  function GetPermissionDescription(permission: string): (d: string)
    ensures permission in Descriptions ==> d == Descriptions[permission]
    ensures permission !in Descriptions ==> d == permission
  {
    if permission in Descriptions then Descriptions[permission] else permission
  }

  /** `getGroupDisplayName`: the display name, or the group key itself. */
  function GetGroupDisplayName(group: string): (d: string)
    ensures group in GroupDisplayNames ==> d == GroupDisplayNames[group]
    ensures group !in GroupDisplayNames ==> d == group
  {
    if group in GroupDisplayNames then GroupDisplayNames[group] else group
  }

  /** A permission lies in the i-th group. */
  predicate InGroup(i: int, permission: string)
    requires 0 <= i < |Groups|
  {
    permission in Groups[i].1
  }

  /** The first group, from the i-th on, that holds the permission. */
  function GroupFrom(i: nat, permission: string): (g: Option<string>)
    requires i <= |Groups|
    ensures g.Some? <==> exists j :: i <= j < |Groups| && InGroup(j, permission)
    ensures g.Some? ==> exists j :: i <= j < |Groups| && InGroup(j, permission) && Groups[j].0 == g.value
    decreases |Groups| - i
  {
    if i == |Groups| then None
    else if permission in Groups[i].1 then
      assert InGroup(i, permission);
      Some(Groups[i].0)
    else GroupFrom(i + 1, permission)
  }

  /** `getPermissionGroup`, scanning the groups in order. */
  method GetPermissionGroup(permission: string) returns (g: Option<string>)
    ensures g == GroupFrom(0, permission)
  {
    var i := 0;
    while i < |Groups|
      invariant 0 <= i <= |Groups|
      invariant GroupFrom(0, permission) == GroupFrom(i, permission)
    {
      if permission in Groups[i].1 {
        return Some(Groups[i].0);
      }
      i := i + 1;
    }
    return None;
  }

  /** No permission lies in two groups. */
  lemma GroupsDisjoint(i: int, j: int, permission: string)
    requires 0 <= i < |Groups| && 0 <= j < |Groups| && i != j
    ensures !(InGroup(i, permission) && InGroup(j, permission))
  {
  }

  /** Since the groups are disjoint, a permission's group is the one whose
      list holds it, whatever the scan order. */
  lemma GroupOfMeaning(permission: string, i: int)
    requires 0 <= i < |Groups|
    ensures GroupFrom(0, permission) == Some(Groups[i].0) <==> InGroup(i, permission)
  {
    if GroupFrom(0, permission) == Some(Groups[i].0) {
      var j :| 0 <= j < |Groups| && InGroup(j, permission) && Groups[j].0 == Groups[i].0;
      assert j == i;
    }
    if InGroup(i, permission) {
      var g := GroupFrom(0, permission);
      var j :| 0 <= j < |Groups| && InGroup(j, permission) && Groups[j].0 == g.value;
      if j != i {
        GroupsDisjoint(i, j, permission);
      }
    }
  }

  /** Every grouped permission has its own description. */
  lemma EveryGroupedPermissionIsDescribed(i: int, permission: string)
    requires 0 <= i < |Groups| && InGroup(i, permission)
    ensures permission in GroupedDescriptions
  {
    var k :| 0 <= k < |Groups[i].1| && Groups[i].1[k] == permission;
    GroupMemberDescribed(i, k);
  }

  /** The `k`-th name of group `i` has a description, one group at a time. */
  lemma GroupMemberDescribed(i: int, k: int)
    requires 0 <= i < |Groups| && 0 <= k < |Groups[i].1|
    ensures Groups[i].1[k] in GroupedDescriptions
  {
    if i == 0 {
      ContentDescribed(k);
    } else if i == 1 {
      UsersDescribed(k);
    } else if i == 2 {
      RolesDescribed(k);
    } else if i == 3 {
      AdminDescribed(k);
    }
  }

  lemma ContentDescribed(k: int)
    requires 0 <= k < |Groups[0].1|
    ensures Groups[0].1[k] in GroupedDescriptions
  {
    if k < 5 {
      EarlyContentDescribed(k);
    } else {
      LateContentDescribed(k);
    }
  }

  lemma EarlyContentDescribed(k: int)
    requires 0 <= k < 5 && k < |Groups[0].1|
    ensures Groups[0].1[k] in GroupedDescriptions
  {
    var g := Groups[0].1;
    if k == 0 {
      assert g[0] in GroupedDescriptions;
    } else if k == 1 {
      assert g[1] in GroupedDescriptions;
    } else if k == 2 {
      assert g[2] in GroupedDescriptions;
    } else if k == 3 {
      assert g[3] in GroupedDescriptions;
    } else if k == 4 {
      assert g[4] in GroupedDescriptions;
    }
  }

  lemma LateContentDescribed(k: int)
    requires 5 <= k < |Groups[0].1|
    ensures Groups[0].1[k] in GroupedDescriptions
  {
    var g := Groups[0].1;
    if k == 5 {
      assert g[5] in GroupedDescriptions;
    } else if k == 6 {
      assert g[6] in GroupedDescriptions;
    } else if k == 7 {
      assert g[7] in GroupedDescriptions;
    } else if k == 8 {
      assert g[8] in GroupedDescriptions;
    }
  }


  lemma UsersDescribed(k: int)
    requires 0 <= k < |Groups[1].1|
    ensures Groups[1].1[k] in GroupedDescriptions
  {
    var g := Groups[1].1;
    if k == 0 {
      assert g[0] in GroupedDescriptions;
    } else if k == 1 {
      assert g[1] in GroupedDescriptions;
    } else if k == 2 {
      assert g[2] in GroupedDescriptions;
    } else if k == 3 {
      assert g[3] in GroupedDescriptions;
    }
  }

  lemma RolesDescribed(k: int)
    requires 0 <= k < |Groups[2].1|
    ensures Groups[2].1[k] in GroupedDescriptions
  {
    var g := Groups[2].1;
    if k == 0 {
      assert g[0] in GroupedDescriptions;
    } else if k == 1 {
      assert g[1] in GroupedDescriptions;
    } else if k == 2 {
      assert g[2] in GroupedDescriptions;
    } else if k == 3 {
      assert g[3] in GroupedDescriptions;
    }
  }

  lemma AdminDescribed(k: int)
    requires 0 <= k < |Groups[3].1|
    ensures Groups[3].1[k] in GroupedDescriptions
  {
    var g := Groups[3].1;
    if k == 0 {
      assert g[0] in GroupedDescriptions;
    } else if k == 1 {
      assert g[1] in GroupedDescriptions;
    }
  }


  /** No description is the permission name itself: every description is
      written in CJK characters and every name in ASCII. */
  lemma NoDescriptionIsItsName(permission: string)
    requires permission in Descriptions
    ensures Descriptions[permission] != permission
  {
    if permission in GroupedDescriptions {
      GroupedDescriptionsAreNotNames(permission);
    } else {
      LegacyDescriptionsAreNotNames(permission);
    }
  }

  lemma GroupedDescriptionsAreNotNames(permission: string)
    requires permission in GroupedDescriptions
    ensures GroupedDescriptions[permission] != permission
  {
    assert forall q :: q in GroupedDescriptions ==> GroupedDescriptions[q] != q;
  }

  lemma LegacyDescriptionsAreNotNames(permission: string)
    requires permission in LegacyDescriptions
    ensures LegacyDescriptions[permission] != permission
  {
    assert forall q :: q in LegacyDescriptions ==> LegacyDescriptions[q] != q;
  }

  /** A grouped permission is shown with its table description; a name is
      shown as itself exactly when the table does not describe it. */
  lemma DescriptionMeaning(permission: string)
    ensures (exists i :: 0 <= i < |Groups| && InGroup(i, permission)) ==>
      GetPermissionDescription(permission) == GroupedDescriptions[permission]
    ensures GetPermissionDescription(permission) == permission <==> permission !in Descriptions
  {
    if i :| 0 <= i < |Groups| && InGroup(i, permission) {
      EveryGroupedPermissionIsDescribed(i, permission);
    }
    if permission in Descriptions {
      NoDescriptionIsItsName(permission);
    }
  }

  /** Each group is shown with its display name, and a key is shown as
      itself exactly when it names no group. */
  lemma GroupDisplayNameMeaning(group: string)
    ensures (exists i :: 0 <= i < |Groups| && Groups[i].0 == group) <==> group in GroupDisplayNames
    ensures GetGroupDisplayName(group) == group <==> group !in GroupDisplayNames
  {
    GroupKeys();
    if i :| 0 <= i < |Groups| && Groups[i].0 == group {
      assert i == 0 || i == 1 || i == 2 || i == 3;
    }
    if group in GroupDisplayNames {
      assert group == "content" || group == "users" || group == "roles" || group == "admin";
    }
  }

  /** The four group keys, in order. */
  lemma GroupKeys()
    ensures |Groups| == 4
    ensures Groups[0].0 == "content" && Groups[1].0 == "users" && Groups[2].0 == "roles" && Groups[3].0 == "admin"
  {
  }

  /** The names the post policy and the middleware check are in no group. */
  lemma PolicyNamesAreUngrouped()
    ensures GroupFrom(0, "edit_others_post").None? && GroupFrom(0, "edit_own_post").None?
  {
    Ungrouped("edit_others_post");
    Ungrouped("edit_own_post");
  }

  /** Nor are the names the admin middleware and the older seeder use. */
  lemma OlderNamesAreUngrouped()
    ensures GroupFrom(0, "delete_others_post").None? && GroupFrom(0, "access_admin_area").None?
  {
    Ungrouped("delete_others_post");
    Ungrouped("access_admin_area");
  }

  lemma Ungrouped(permission: string)
    requires permission !in Groups[0].1 && permission !in Groups[1].1
    requires permission !in Groups[2].1 && permission !in Groups[3].1
    ensures GroupFrom(0, permission).None?
  {
    forall i | 0 <= i < |Groups| ensures !InGroup(i, permission) {
      assert i == 0 || i == 1 || i == 2 || i == 3;
    }
  }

  /** `$this->permissionGroups[$group] ?? []`. */
  function GroupList(group: string): (names: seq<string>)
    ensures forall n :: n in names <==> exists i :: 0 <= i < |Groups| && Groups[i].0 == group && InGroup(i, n)
  {
    if group == "content" then Groups[0].1
    else if group == "users" then Groups[1].1
    else if group == "roles" then Groups[2].1
    else if group == "admin" then Groups[3].1
    else []
  }

  /** `flatMap`: the concatenation of the lists. */
  function Flatten(lists: seq<seq<string>>): (r: seq<string>)
    ensures forall x :: x in r <==> exists i :: 0 <= i < |lists| && x in lists[i]
  {
    if |lists| == 0 then []
    else
      var r := Flatten(lists[..|lists| - 1]) + lists[|lists| - 1];
      assert forall i :: 0 <= i < |lists| - 1 ==> lists[..|lists| - 1][i] == lists[i];
      r
  }

  /** `unique()`: the first occurrence of each value, in order. */
  function Unique(xs: seq<string>): (r: seq<string>)
    ensures forall x :: x in r <==> x in xs
    ensures forall i, j :: 0 <= i < j < |r| ==> r[i] != r[j]
  {
    if |xs| == 0 then []
    else
      var init := Unique(xs[..|xs| - 1]);
      var last := xs[|xs| - 1];
      assert forall x :: x in xs <==> x in xs[..|xs| - 1] || x == last;
      if last in init then init else init + [last]
  }

  /** `getPermissionNamesByGroups`: the names of the given groups, once each. */
  function GetPermissionNamesByGroups(groups: seq<string>): (names: seq<string>)
    ensures forall n :: n in names <==> exists g :: g in groups && n in GroupList(g)
    ensures forall i, j :: 0 <= i < j < |names| ==> names[i] != names[j]
  {
    var lists := seq(|groups|, k requires 0 <= k < |groups| => GroupList(groups[k]));
    var r := Unique(Flatten(lists));
    assert forall n :: n in r ==> exists g :: g in groups && n in GroupList(g) by {
      forall n | n in r ensures exists g :: g in groups && n in GroupList(g) {
        var k :| 0 <= k < |groups| && n in lists[k];
        assert groups[k] in groups && n in GroupList(groups[k]);
      }
    }
    assert forall n :: (exists g :: g in groups && n in GroupList(g)) ==> n in r by {
      forall n | exists g :: g in groups && n in GroupList(g) ensures n in r {
        var g :| g in groups && n in GroupList(g);
        var k :| 0 <= k < |groups| && groups[k] == g;
        assert n in lists[k];
      }
    }
    r
  }

  /** `getPermissionsByGroups`: the permission rows named by the given groups,
      returned as an Eloquent collection. */
  function GetPermissionsByGroups(rows: seq<Row>, groups: seq<string>): (r: Arg)
    ensures r.Collection?
    ensures forall x :: x in r.models <==>
      exists row :: row in rows && (exists g :: g in groups && row.name in GroupList(g)) && x == Model(PermissionModel, row.id, row.name)
  {
    var names := GetPermissionNamesByGroups(groups);
    Collection(WhereInGet(PermissionModel, rows, set n | n in names))
  }

  /** Every grouped name, once. */
  function AllGroupPermissions(): (names: seq<string>)
    ensures forall n :: n in names <==> exists i :: 0 <= i < |Groups| && InGroup(i, n)
    ensures forall i, j :: 0 <= i < j < |names| ==> names[i] != names[j]
  {
    var lists := seq(|Groups|, k requires 0 <= k < |Groups| => Groups[k].1);
    assert forall k :: 0 <= k < |Groups| ==> lists[k] == Groups[k].1;
    assert forall k, n :: 0 <= k < |lists| && n in lists[k] ==> InGroup(k, n);
    Unique(Flatten(lists))
  }

  /** `diff`: the names in order that no row has. */
  function Missing(names: seq<string>, rows: seq<Row>): (r: seq<string>)
    ensures forall n :: n in r <==> n in names && FindByName(rows, n).None?
    ensures (forall i, j :: 0 <= i < j < |names| ==> names[i] != names[j]) ==> forall i, j :: 0 <= i < j < |r| ==> r[i] != r[j]
  {
    if |names| == 0 then []
    else
      var rest := Missing(names[1..], rows);
      assert forall n :: n in names <==> n == names[0] || n in names[1..];
      if FindByName(rows, names[0]).None? then [names[0]] + rest else rest
  }

  /** The table after creating one row per name, with consecutive ids; the
      `guard_name` attribute is not fillable and is dropped. */
  function Created(rows: seq<Row>, nextId: int, names: seq<string>): (r: seq<Row>)
    ensures |r| == |rows| + |names| && rows <= r
    ensures forall k :: 0 <= k < |names| ==> r[|rows| + k] == Row(nextId + k, names[k], None, None)
    decreases |names|
  {
    if |names| == 0 then rows
    else Created(rows + [Row(nextId, names[0], None, None)], nextId + 1, names[1..])
  }

  /** After creating the first i names, creating the rest gives what
      creating them all would have given. */
  ghost predicate CreatedSoFar(rows0: seq<Row>, next0: int, names: seq<string>, rows: seq<Row>, next: int, i: nat) {
    i <= |names| && Created(rows0, next0, names) == Created(rows, next, names[i..])
  }

  /** Creating the names from position i on is creating the i-th, then the rest. */
  lemma CreatedStep(rows0: seq<Row>, next0: int, names: seq<string>, rows: seq<Row>, next: int, i: nat)
    requires i < |names| && CreatedSoFar(rows0, next0, names, rows, next, i)
    ensures CreatedSoFar(rows0, next0, names, rows + [Row(next, names[i], None, None)], next + 1, i + 1)
  {
    assert names[i..][0] == names[i] && names[i..][1..] == names[i + 1..];
  }

  /** Once every name is created, the rows are the result. */
  lemma CreatedDone(rows0: seq<Row>, next0: int, names: seq<string>, rows: seq<Row>, next: int)
    requires CreatedSoFar(rows0, next0, names, rows, next, |names|)
    ensures rows == Created(rows0, next0, names)
  {
    assert names[|names|..] == [];
  }

  /** Creating distinct missing names keeps the table valid. */
  lemma CreatedKeepsValid(rows: seq<Row>, nextId: int, names: seq<string>)
    requires TableValid(rows, nextId)
    requires forall i, j :: 0 <= i < j < |names| ==> names[i] != names[j]
    requires forall n :: n in names ==> FindByName(rows, n).None?
    ensures TableValid(Created(rows, nextId, names), nextId + |names|)
  {
    var r := Created(rows, nextId, names);
    forall i | 0 <= i < |r|
      ensures i < |rows| ==> r[i] == rows[i]
      ensures i >= |rows| ==> r[i] == Row(nextId + (i - |rows|), names[i - |rows|], None, None)
    {
      if i < |rows| {
        assert r[..|rows|] == rows;
      }
    }
    forall i, j | 0 <= i < |r| && 0 <= j < |r| && i != j
      ensures r[i].id != r[j].id && r[i].name != r[j].name
    {
      if i >= |rows| && j < |rows| {
        assert names[i - |rows|] in names;
      } else if j >= |rows| && i < |rows| {
        assert names[j - |rows|] in names;
      }
    }
  }

  /** `ensurePermissionsExist`: create every grouped permission no row has yet. */
  method EnsurePermissionsExist(db: AuthDb)
    modifies db`permissions, db`nextPermissionId
    ensures var missing := Missing(AllGroupPermissions(), old(db.permissions));
      db.permissions == Created(old(db.permissions), old(db.nextPermissionId), missing) &&
      db.nextPermissionId == old(db.nextPermissionId) + |missing|
  {
    var missing := Missing(AllGroupPermissions(), db.permissions);
    CreateEach(db, missing);
  }

  /** `each(fn => Permission::create(...))` over the missing names. */
  method CreateEach(db: AuthDb, missing: seq<string>)
    modifies db`permissions, db`nextPermissionId
    ensures db.permissions == Created(old(db.permissions), old(db.nextPermissionId), missing)
    ensures db.nextPermissionId == old(db.nextPermissionId) + |missing|
  {
    ghost var rows0 := db.permissions;
    ghost var next0 := db.nextPermissionId;
    var i := 0;
    while i < |missing|
      invariant db.nextPermissionId == next0 + i
      invariant CreatedSoFar(rows0, next0, missing, db.permissions, db.nextPermissionId, i)
    {
      CreatedStep(rows0, next0, missing, db.permissions, db.nextPermissionId, i);
      db.permissions := db.permissions + [Row(db.nextPermissionId, missing[i], None, None)];
      db.nextPermissionId := db.nextPermissionId + 1;
      i := i + 1;
    }
    CreatedDone(rows0, next0, missing, db.permissions, db.nextPermissionId);
  }

  /** Afterwards every grouped permission has a row, and running it again
      creates nothing. */
  lemma EnsureCompletes(rows: seq<Row>, nextId: int, n: string)
    requires exists i :: 0 <= i < |Groups| && InGroup(i, n)
    ensures FindByName(Created(rows, nextId, Missing(AllGroupPermissions(), rows)), n).Some?
    ensures Missing(AllGroupPermissions(), Created(rows, nextId, Missing(AllGroupPermissions(), rows))) == []
  {
    var missing := Missing(AllGroupPermissions(), rows);
    var r := Created(rows, nextId, missing);
    forall m | m in AllGroupPermissions() ensures FindByName(r, m).Some? {
      if FindByName(rows, m).Some? {
        var row := FindByName(rows, m).value;
        var k :| 0 <= k < |rows| && rows[k] == row;
        assert r[k] == row;
      } else {
        var k :| 0 <= k < |missing| && missing[k] == m;
        assert r[|rows| + k].name == m;
      }
    }
    NothingMissing(AllGroupPermissions(), r);
  }

  lemma {:induction false} NothingMissing(names: seq<string>, rows: seq<Row>)
    requires forall m :: m in names ==> FindByName(rows, m).Some?
    ensures Missing(names, rows) == []
  {
    if |names| > 0 {
      NothingMissing(names[1..], rows);
    }
  }

  /** One group of `getCachedPermissionGroups`: its display name and each
      permission with its description. */
  datatype GroupEntry = GroupEntry(key: string, name: string, permissions: seq<(string, string)>)

  /** The value `getCachedPermissionGroups` computes and caches. */
  function CachedPermissionGroups(): (r: seq<GroupEntry>)
    ensures |r| == |Groups|
    ensures forall i :: 0 <= i < |r| ==> r[i].key == Groups[i].0 && r[i].name == GetGroupDisplayName(Groups[i].0)
    ensures forall i :: 0 <= i < |r| ==> (|r[i].permissions| == |Groups[i].1| &&
              forall k :: 0 <= k < |Groups[i].1| ==> r[i].permissions[k] == (Groups[i].1[k], GetPermissionDescription(Groups[i].1[k])))
  {
    seq(|Groups|, i requires 0 <= i < |Groups| =>
      GroupEntry(Groups[i].0, GetGroupDisplayName(Groups[i].0),
                 seq(|Groups[i].1|, k requires 0 <= k < |Groups[i].1| => (Groups[i].1[k], GetPermissionDescription(Groups[i].1[k])))))
  }

  /** Every group has a display name of its own and no permission in the
      cached table falls back to its bare name. */
  lemma CachedGroupsAreDescribed(i: int, k: int)
    requires 0 <= i < |Groups| && 0 <= k < |Groups[i].1|
    ensures CachedPermissionGroups()[i].name == GroupDisplayNames[Groups[i].0]
    ensures Groups[i].1[k] in Descriptions && CachedPermissionGroups()[i].permissions[k].1 == Descriptions[Groups[i].1[k]]
  {
    EveryGroupedPermissionIsDescribed(i, Groups[i].1[k]);
  }
}
