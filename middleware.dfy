/** The route middleware guarding the application: permission, role,
    role-or-permission, contextual permission and admin-area checks. */
module Middleware {
  import opened Common
  import opened Php
  import opened TemporaryPermissions
  import opened AuthStore
  import opened Users

  /** What a middleware does with a request: send a guest to the login page,
      hand the request on, or answer 403 (as JSON or as an error page, which
      the model does not distinguish). */
  datatype Decision = RedirectToLogin | Next | Forbidden

  /** A value bound to a route parameter: the raw text of the URL segment, or
      a model the router resolved (only its id matters here). */
  datatype RouteValue = Text(text: string) | Bound(id: int)

  /** The parts of a request the middleware read. */
  datatype Request = Request(user: Option<int>, route: map<string, RouteValue>)

  /** `hasRole('super-admin')`. */
  predicate IsSuperAdmin(s: Store, u: int) {
    HasRole(s, u, Single(ByName("super-admin")))
  }

  /** `CheckPermission::handle`: guests go to login, super-admins pass, others
      need the permission (with no context conditions). */
  function CheckPermission(s: Store, req: Request, permission: string, now: int): (d: Decision)
    ensures d == RedirectToLogin <==> req.user.None?
    ensures d == Next <==>
      (req.user.Some? &&
       (IsSuperAdmin(s, req.user.value) || HasPermissionTo(s, req.user.value, ByName(permission), map[], now)))
  {
    match req.user
    case None => RedirectToLogin
    case Some(u) =>
      if IsSuperAdmin(s, u) then Next
      else if !HasPermissionTo(s, u, ByName(permission), map[], now) then Forbidden
      else Next
  }

  /** `CheckRole::handle`: guests go to login; anyone else needs one of the
      '|'-separated roles. There is no super-admin shortcut here. */
  function CheckRole(s: Store, req: Request, role: string): (d: Decision)
    ensures d == RedirectToLogin <==> req.user.None?
  {
    match req.user
    case None => RedirectToLogin
    case Some(u) => if !HasRole(s, u, Single(ByName(role))) then Forbidden else Next
  }

  /** `CheckRole` passes exactly the users holding one of the listed roles. */
  lemma CheckRoleMeaning(s: Store, u: int, role: string, route: map<string, RouteValue>)
    ensures CheckRole(s, Request(Some(u), route), role) == Next <==>
            exists part :: part in Explode('|', role) && part in RoleNames(s, u)
  {
    HasRoleByString(s, u, role);
  }

  /** A super-admin holding no other role passes every `permission:` route
      but is refused by `role:admin`. */
  lemma SuperAdminNotBypassingCheckRole(s: Store, u: int, route: map<string, RouteValue>, permission: string, now: int)
    requires RoleNames(s, u) == {"super-admin"}
    ensures CheckPermission(s, Request(Some(u), route), permission, now) == Next
    ensures CheckRole(s, Request(Some(u), route), "admin") == Forbidden
  {
    assert '|' !in "super-admin";
    assert '|' !in "admin";
  }

  /** One alternative of `role_or_permission:`: a role name or a permission name. */
  predicate RoleOrPermission(s: Store, u: int, item: string, now: int) {
    HasRole(s, u, Single(ByName(item))) || HasPermissionTo(s, u, ByName(item), map[], now)
  }

  /** `hasRoleOrPermission`, trying each alternative in turn. */
  method HasRoleOrPermission(s: Store, u: int, items: seq<string>, now: int) returns (r: bool)
    ensures r <==> exists i :: 0 <= i < |items| && RoleOrPermission(s, u, items[i], now)
  {
    var i := 0;
    while i < |items|
      invariant 0 <= i <= |items|
      invariant forall j :: 0 <= j < i ==> !RoleOrPermission(s, u, items[j], now)
    {
      if HasRole(s, u, Single(ByName(items[i]))) {
        return true;
      }
      if HasPermissionTo(s, u, ByName(items[i]), map[], now) {
        return true;
      }
      i := i + 1;
    }
    return false;
  }

  /** `CheckRoleOrPermission::handle`: the '|'-separated list passes when any
      entry is a role the user holds or a permission the user has. */
  function CheckRoleOrPermission(s: Store, req: Request, roleOrPermission: string, now: int): (d: Decision)
    ensures d == RedirectToLogin <==> req.user.None?
    ensures req.user.Some? ==>
      (d == Next <==> exists part :: part in Explode('|', roleOrPermission) && RoleOrPermission(s, req.user.value, part, now))
  {
    match req.user
    case None => RedirectToLogin
    case Some(u) =>
      var items := Explode('|', roleOrPermission);
      if !(exists i :: 0 <= i < |items| && RoleOrPermission(s, u, items[i], now)) then Forbidden else Next
  }

  /** A single name in `role_or_permission:` behaves like `role:` or
      `permission:` on it, whichever would pass, but without the super-admin
      shortcut of `permission:`. */
  lemma RoleOrPermissionSingle(s: Store, u: int, name: string, route: map<string, RouteValue>, now: int)
    requires '|' !in name
    ensures CheckRoleOrPermission(s, Request(Some(u), route), name, now) == Next <==>
            CheckRole(s, Request(Some(u), route), name) == Next ||
            HasPermissionTo(s, u, ByName(name), map[], now)
  {
    var items := Explode('|', name);
    assert items == [name];
    if RoleOrPermission(s, u, name, now) {
      assert RoleOrPermission(s, u, items[0], now);
    }
  }

  /** A list `a|b` passes exactly when its first name `a` passes on its own
      or the rest `b` does: with RoleOrPermissionSingle this pins the pass
      condition of any list, one name at a time. */
  lemma RoleOrPermissionSplit(s: Store, u: int, a: string, b: string, route: map<string, RouteValue>, now: int)
    requires '|' !in a
    ensures CheckRoleOrPermission(s, Request(Some(u), route), a + "|" + b, now) == Next <==>
            CheckRoleOrPermission(s, Request(Some(u), route), a, now) == Next ||
            CheckRoleOrPermission(s, Request(Some(u), route), b, now) == Next
  {
    ExplodeAtFirst('|', a, b);
    assert a + "|" + b == a + ['|'] + b;
    var items := Explode('|', a + "|" + b);
    var rest := Explode('|', b);
    assert items == [a] + rest;
    if exists i :: 0 <= i < |items| && RoleOrPermission(s, u, items[i], now) {
      var i :| 0 <= i < |items| && RoleOrPermission(s, u, items[i], now);
      if i > 0 {
        assert items[i] == rest[i - 1];
      } else {
        assert Explode('|', a)[0] == a;
      }
    }
    if exists j :: 0 <= j < |rest| && RoleOrPermission(s, u, rest[j], now) {
      var j :| 0 <= j < |rest| && RoleOrPermission(s, u, rest[j], now);
      assert items[j + 1] == rest[j];
    }
    if RoleOrPermission(s, u, a, now) {
      assert items[0] == a;
    }
  }

  /** How a context parameter reads: `route_param:condition_key`, or just
      `route_param` used as its own key. */
  function ParamNames(param: string): (names: (string, string))
    ensures ':' !in param ==> names == (param, param)
  {
    var parts := Explode(':', param);
    (parts[0], if |parts| > 1 then parts[1] else parts[0])
  }

  /** PHP truthiness of a route value: an object is always true. */
  predicate RouteTruthy(v: RouteValue) {
    match v
    case Text(t) => Truthy(t)
    case Bound(_) => true
  }

  /** The condition value a route value contributes: a model's id, or the text. */
  function ConditionValue(v: RouteValue): Scalar {
    match v
    case Text(t) => Str(t)
    case Bound(id) => Int(id)
  }

  /** One step of the context loop. */
  function AddParam(ctx: map<string, Scalar>, param: string, route: map<string, RouteValue>): map<string, Scalar> {
    var (routeParam, key) := ParamNames(param);
    if routeParam in route && RouteTruthy(route[routeParam]) then ctx[key := ConditionValue(route[routeParam])] else ctx
  }

  /** The conditions built from all context parameters, later ones overwriting
      earlier ones with the same key. */
  function ContextOf(params: seq<string>, route: map<string, RouteValue>): map<string, Scalar> {
    if |params| == 0 then map[]
    else AddParam(ContextOf(params[..|params| - 1], route), params[|params| - 1], route)
  }

  /** The `foreach` over the context parameters. */
  method BuildContext(params: seq<string>, route: map<string, RouteValue>) returns (conditions: map<string, Scalar>)
    ensures conditions == ContextOf(params, route)
  {
    conditions := map[];
    var i := 0;
    while i < |params|
      invariant 0 <= i <= |params|
      invariant conditions == ContextOf(params[..i], route)
    {
      assert params[..i + 1][..i] == params[..i];
      var (routeParam, key) := ParamNames(params[i]);
      if routeParam in route && RouteTruthy(route[routeParam]) {
        conditions := conditions[key := ConditionValue(route[routeParam])];
      }
      i := i + 1;
    }
    assert params[..|params|] == params;
  }

  /** Every condition key comes from some parameter, and only a route value
      that is present and truthy contributes one. */
  lemma {:induction false} ContextKeysFromParams(params: seq<string>, route: map<string, RouteValue>, key: string)
    requires key in ContextOf(params, route)
    ensures exists i :: 0 <= i < |params| && ParamNames(params[i]).1 == key &&
              ParamNames(params[i]).0 in route && RouteTruthy(route[ParamNames(params[i]).0])
  {
    var init := params[..|params| - 1];
    var last := params[|params| - 1];
    if ParamNames(last).1 == key && ParamNames(last).0 in route && RouteTruthy(route[ParamNames(last).0]) {
    } else {
      assert key in ContextOf(init, route);
      ContextKeysFromParams(init, route, key);
      var i :| 0 <= i < |init| && ParamNames(init[i]).1 == key &&
               ParamNames(init[i]).0 in route && RouteTruthy(route[ParamNames(init[i]).0]);
      assert params[i] == init[i];
    }
  }

  /** `CheckContextualPermission::handle`: guests go to login, super-admins
      pass, others need the permission under the conditions read from the route. */
  function CheckContextualPermission(s: Store, req: Request, permission: string, params: seq<string>, now: int): (d: Decision)
    ensures d == RedirectToLogin <==> req.user.None?
    ensures req.user.Some? && IsSuperAdmin(s, req.user.value) ==> d == Next
    ensures req.user.Some? && !IsSuperAdmin(s, req.user.value) ==>
      (d == Next <==> HasPermissionTo(s, req.user.value, ByName(permission), ContextOf(params, req.route), now))
  {
    match req.user
    case None => RedirectToLogin
    case Some(u) =>
      if IsSuperAdmin(s, u) then Next
      else if !HasPermissionTo(s, u, ByName(permission), ContextOf(params, req.route), now) then Forbidden
      else Next
  }

  /** Without context parameters the contextual check is the plain
      permission check: the conditions are empty. */
  lemma ContextualWithoutParams(s: Store, req: Request, permission: string, now: int)
    ensures CheckContextualPermission(s, req, permission, [], now) == CheckPermission(s, req, permission, now)
  {
    assert ContextOf([], req.route) == map[];
  }

  /** A live temporary grant scoped to one record passes the contextual check
      on the route bound to that record: `edit_others_post` granted with
      `{post_id: 7}` opens `/posts/{post}` for post 7 under `post:post_id`. */
  lemma ScopedGrantOpensItsRecord(s: Store, u: int, permission: string, routeParam: string, key: string, id: int, now: int, i: int)
    requires ':' !in routeParam && ':' !in key
    requires 0 <= i < |s.temporaryPermissions|
    requires s.temporaryPermissions[i] == TemporaryPermission(u, permission, map[key := Int(id)], s.temporaryPermissions[i].expiresAt, None, None)
    requires s.temporaryPermissions[i].expiresAt > now
    ensures CheckContextualPermission(s, Request(Some(u), map[routeParam := Bound(id)]), permission, [routeParam + ":" + key], now) == Next
  {
    var param := routeParam + ":" + key;
    assert param == routeParam + [':'] + key;
    ExplodeAtFirst(':', routeParam, key);
    assert Explode(':', key) == [key];
    assert ParamNames(param) == (routeParam, key);
    var route := map[routeParam := Bound(id)];
    assert [param][..0] == [];
    assert ContextOf([param], route) == map[key := Int(id)];
    var t := s.temporaryPermissions[i];
    LooseEqSymmetric(Int(id), Int(id));
    assert Holds(t.conditions, map[key := Int(id)], key);
    assert Matches(t.conditions, map[key := Int(id)]);
    assert Grants(t, u, permission, map[key := Int(id)], now);
  }

  /** The same grant also opens a route whose parameter is the plain decimal
      text of the id, because `"7" == 7`. */
  lemma ScopedGrantMatchesRouteText(t: TemporaryPermission, key: string, n: nat)
    requires t.conditions == map[key := Int(n)]
    ensures Matches(t.conditions, map[key := Str(Decimal.Show(n))])
  {
    IntMatchesItsDecimalString(n);
    assert Holds(t.conditions, map[key := Str(Decimal.Show(n))], key);
  }

  /** `AdminMiddleware::handle`: guests go to login, super-admins pass, others
      need the `is_admin` attribute. */
  function AdminArea(s: Store, req: Request): (d: Decision)
    ensures d == RedirectToLogin <==> req.user.None?
  {
    match req.user
    case None => RedirectToLogin
    case Some(u) =>
      if IsSuperAdmin(s, u) then Next
      else if !IsAdmin(s, u) then Forbidden
      else Next
  }

  /** The super-admin shortcut changes nothing: the admin area admits exactly
      the holders of `admin` or `super-admin`. */
  lemma AdminAreaMeaning(s: Store, u: int, route: map<string, RouteValue>)
    ensures AdminArea(s, Request(Some(u), route)) == Next <==>
            "admin" in RoleNames(s, u) || "super-admin" in RoleNames(s, u)
  {
    IsAdminMeaning(s, u);
    assert '|' !in "super-admin";
  }
}
