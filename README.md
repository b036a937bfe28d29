# Blog authorization and editing core, in Dafny

This project models the core of a Laravel blog with a home-grown role and
permission system, and proves properties of that model.

**Authorization store.** Users, roles and permissions are linked by pivot
tables: `user_roles`, `role_permissions` and `user_permissions`. There are
also temporary, optionally condition-scoped grants. The model covers:

- the role test;
- the three-way permission check: direct, through a role, or a live
  temporary grant whose conditions match the request context;
- the mutators of the pivot rows, which accept a name, an id, a model
  object or a list of these;
- impersonation.

The tables are an `AuthStore.AuthDb` object whose fields the mutators
update. Decisions read an immutable snapshot of it (`AuthStore.Store`).

**Enforcement.** The five route middlewares and the post and comment
policies are decision functions over that snapshot. So are the two entry
points of the permission service.

**Bootstrap.** The two initializers create the base permissions and roles,
give each role its permissions and make sure a super administrator exists.
They are modelled as state changes on the store.

**Content.** The rest of the model covers posts, drafts and scheduling:

- the editor's and the author pages' controllers (slug choice, publication
  time, tag sync, draft clean-up, listing filters and sort);
- the draft API;
- the scheduled-publishing command;
- the editor's client-side store;
- the text, reading-time and relative-time helpers of the front end.

**Parameters and PHP semantics.** Clocks, random strings and the output of
`Str::slug` are parameters. PHP's loose `==` and string truthiness are
written out in `Php`, because the source relies on them: a numeric string
(optional surrounding whitespace, sign, digits with at most one point, an
optional exponent) compares with a number or another numeric string by
value, any other string compares character for character.

## Model

| member | source | states |
|---|---|---|
| TemporaryPermissions.ExpiryBoundary | app/Models/TemporaryPermission.php:57-60 | no instant is both active (`expires_at > now`) and expired (`isPast`); exactly at the deadline a grant is neither |
| TemporaryPermissions.ConditionsMatch | app/Models/TemporaryPermission.php:68-88 | the loop returns exactly Matches: true for no conditions, false for an empty context, else every stored key is set and loosely equal |
| TemporaryPermissions.MatchesMeaning | app/Models/TemporaryPermission.php:68-88 | the empty-context test never changes the outcome: a match is exactly "every stored condition holds" |
| TemporaryPermissions.ScopedGrantNeedsContext | app/Models/TemporaryPermission.php:75-78 | a grant with conditions never matches the empty context |
| TemporaryPermissions.MatchesMonotone | app/Models/TemporaryPermission.php:80-87 | adding context keys never turns a match into a non-match |
| Users.HasRoleByString | app/Models/User.php:180-192 | a string argument holds a role exactly when one of its '\|'-separated parts names a role of the user; a string without '\|' is its own one-part list |
| Users.HasRoleByNameOrId | app/Models/User.php:180-200 | with unique role names, asking by a role's name and by its id give the same answer |
| Users.StringItemsOfNames | app/Models/User.php:211-214 | an array built from names hands `hasRole` exactly those names |
| Users.HasAnyRoleMeaning | app/Models/User.php:211-214 | `hasAnyRole` holds exactly when one of the listed names is a role of the user |
| Users.HasAllRoles | app/Models/User.php:222-234 | the loop returns true exactly when every listed name is loosely equal (`in_array`) to one of the user's role names |
| Users.AllRolesImplyAny | app/Models/User.php:211-234 | holding every listed role satisfies `hasAllRoles`, and on a non-empty list also `hasAnyRole` |
| Users.IsAdminMeaning | app/Models/User.php:69-72 | `is_admin` holds exactly when the user has the `admin` or the `super-admin` role |
| Users.HasPermissionViaRole | app/Models/User.php:265-291 | the walk over the user's roles returns true exactly when some role holds the permission by a non-zero id or a truthy name; any other argument is refused |
| Users.HasTemporaryPermission | app/Models/User.php:136-152 | true exactly when some stored grant of this user for this permission expires after now and matches the conditions |
| Users.NothingHeldMeansDenied | app/Models/User.php:300-320 | a user with no roles, no direct grants and no temporary grants is refused every permission |
| Users.CanIgnoresModelArgument | app/Models/User.php:329-336 | `can` with a non-array second argument checks the permission with no conditions, exactly like `hasPermissionTo(name)` |
| Users.NamesViaRolesMembers | app/Models/User.php:549-552 | a name is collected from the roles exactly when one of the listed roles holds it |
| Users.GetAllPermissions | app/Models/User.php:543-556 | the loop returns the union of the direct permission names and the names held through each role |
| Users.AllPermissionsAgreeWithCheck | app/Models/User.php:242-291 | for a truthy name, being listed by `getAllPermissions` is the same as holding it directly or through a role |
| Users.ZeroNamedPermissionViaRoleIsRefused | app/Models/User.php:284-285 | a permission named "0" held only through a role is listed yet refused, because the `$permName &&` guard treats "0" as false |
| Users.AssignRole | app/Models/User.php:344-370 | the resolved role ids (names looked up, ids and Role objects taken as they are) are inserted one by one; when one names no role the foreign key rejects it: that id is returned, the ids before it stay inserted and none after it is; otherwise all are attached; nothing else changes |
| Users.RemoveRole | app/Models/User.php:378-404 | the resolved role ids are detached from the user and nothing else changes |
| Users.SyncRoles | app/Models/User.php:412-436 | the user's roles not among the resolved ids are detached, then the ids are inserted one by one; with every id naming a role the user's roles become exactly those ids (none when none resolve), and otherwise the first id naming no role is returned and nothing after it is inserted |
| Users.GivePermissionTo | app/Models/User.php:444-470 | the resolved permission ids are inserted one by one as direct permissions; the first one naming no permission is rejected and returned, with the earlier ones kept; otherwise all are attached; nothing else changes |
| Users.RevokePermissionTo | app/Models/User.php:478-504 | the resolved permission ids are detached from the user and nothing else changes |
| Users.SyncPermissions | app/Models/User.php:512-536 | the user's direct permissions become exactly the resolved ids when each names a permission; otherwise the first dangling id is returned and only the ids before it are inserted after the detach |
| Users.AssignedRoleIsHeld | app/Models/User.php:344-370 | after assigning an existing role by name the user holds it by name, and no other user's roles change |
| Users.SyncRolesWithCollectionClears | app/Models/User.php:412-433 | syncing with an Eloquent collection resolves nothing and leaves the user with no roles |
| Users.NewGrant | app/Models/User.php:113-127 | the new grant belongs to the user and names the permission; it expires one day after now and has no conditions unless the options say otherwise |
| Users.GrantTemporaryPermission | app/Models/User.php:113-127 | the new grant is appended to the stored temporary permissions and nothing else changes |
| Users.DefaultGrantUsableForADay | app/Models/User.php:113-152 | a grant made with default options is honoured at every instant before a day has passed |
| Users.ImpersonationNeedsDistinctNonAdmin | app/Models/User.php:573-605 | impersonation needs an admin actor and a non-admin target, so nobody impersonates themself and no admin is impersonated |
| Users.Impersonate | app/Models/User.php:595-618 | succeeds exactly when allowed; then the session remembers the actor and the time and the target becomes the current user, otherwise nothing changes |
| Users.AfterLeave | app/Models/User.php:625-647 | without a remembered impersonator the result is false and the session is unchanged; otherwise it succeeds exactly when that user still exists (`findOrFail`), logging them back in and forgetting the markers, and on failure nothing changes |
| Users.LeaveImpersonation | app/Models/User.php:625-647 | the outcome and the new session are those AfterLeave describes |
| Users.LeaveUndoesImpersonate | app/Models/User.php:595-647 | leaving right after impersonating logs the original user back in with no impersonation remembered; leaving when not impersonating returns false |
| Roles.RolePermissionInherited | app/Models/Role.php:57-75 | a permission the role holds by a truthy name is granted by `hasPermissionTo` to every holder of the role |
| Roles.GivePermissionTo | app/Models/Role.php:83-109 | the resolved permission ids are attached to the role, nothing happens when none resolve, the first id naming no permission is rejected and returned (earlier inserts kept, later ones not made), and no other table changes |
| Roles.RevokePermissionTo | app/Models/Role.php:117-143 | the resolved permission ids are detached from the role and nothing else changes |
| Roles.SyncPermissions | app/Models/Role.php:151-175 | the role's permissions become exactly the resolved ids, even when none resolve, when every id names a permission; otherwise the first dangling id is returned and only the ids before it are inserted after the detach |
| Roles.RevokedPermissionIsGone | app/Models/Role.php:117-143 | after revoking a permission by id the role no longer holds it, and every other role keeps its permissions |
| Roles.SyncWithCollectionEmptiesRole | app/Models/Role.php:151-172 | syncing with an Eloquent collection resolves nothing and leaves the role with no permissions |
| Roles.GetUserIds | app/Models/Role.php:182-185 | the ids returned are exactly the existing users linked to the role |
| Roles.GetUserIdsAgreesWithHasRole | app/Models/Role.php:182-185 | a user is listed exactly when `hasRole` by the role's id succeeds for them |
| Permissions.GetAllUsersAgreesWithChecks | app/Models/Permission.php:56-75 | the users listed are exactly the existing users for whom `hasDirectPermission` or `hasPermissionViaRole` succeeds on the same permission |
| Permissions.AssignRole | app/Models/Permission.php:83-109 | the resolved role ids are attached to the permission, nothing happens when none resolve, the first id naming no role is rejected and returned with the earlier inserts kept, and no other table changes |
| Permissions.AssignRoleMirrorsGivePermission | app/Models/Permission.php:83-109 | giving a permission a role writes the same pivot row as giving the role the permission |
| Permissions.AssignUsers | app/Models/Permission.php:117-138 | the resolved user ids are attached to the permission; the first id naming no user is rejected and returned with the earlier inserts kept; nothing else changes |
| Permissions.AssignUsersTakesIdsAndUsers | app/Models/Permission.php:125-131 | only ints and User objects resolve to user ids; names and other values are dropped |
| Middleware.CheckPermission | app/Http/Middleware/CheckPermission.php:23-47 | a guest is sent to login; a user passes exactly when a super-admin or holding the permission with no conditions; everyone else gets 403 |
| Middleware.CheckRole | app/Http/Middleware/CheckRole.php:23-42 | a guest, and only a guest, is sent to login |
| Middleware.CheckRoleMeaning | app/Http/Middleware/CheckRole.php:33-41 | a user passes exactly when holding one of the '\|'-separated roles |
| Middleware.SuperAdminNotBypassingCheckRole | app/Http/Middleware/CheckRole.php:33-39 | a user holding only `super-admin` passes every permission route yet is refused by `role:admin`: this middleware has no super-admin shortcut |
| Middleware.HasRoleOrPermission | app/Http/Middleware/CheckRoleOrPermission.php:56-71 | the loop returns true exactly when some entry is a role the user holds or a permission the user has |
| Middleware.CheckRoleOrPermission | app/Http/Middleware/CheckRoleOrPermission.php:23-47 | a guest, and only a guest, is sent to login; a signed-in user passes exactly when some '\|'-separated part is a role the user holds or a permission the user has with no conditions (the predicate HasRoleOrPermission's loop is proved to compute), and gets 403 otherwise |
| Middleware.RoleOrPermissionSplit | app/Http/Middleware/CheckRoleOrPermission.php:33-35 | a list `a\|b` with a '\|'-free first name passes exactly when `a` alone passes or `b` alone does, so a list passes exactly when one of its names would pass alone |
| Middleware.RoleOrPermissionSingle | app/Http/Middleware/CheckRoleOrPermission.php:33-46 | a single name passes exactly when `role:` on it would pass or the user has the permission, with no super-admin shortcut |
| Middleware.ParamNames | app/Http/Middleware/CheckContextualPermission.php:44-46 | a parameter without ':' is both the route parameter and the condition key |
| Middleware.BuildContext | app/Http/Middleware/CheckContextualPermission.php:39-58 | the loop builds the conditions ContextOf defines: each truthy route value under its key, a bound model by its id, later parameters overwriting earlier ones |
| Middleware.ContextKeysFromParams | app/Http/Middleware/CheckContextualPermission.php:42-58 | every condition key comes from a parameter whose route value is present and truthy |
| Middleware.CheckContextualPermission | app/Http/Middleware/CheckContextualPermission.php:24-70 | a guest, and only a guest, is sent to login; a super-admin always passes; any other user passes exactly when holding the permission under the conditions built from the route parameters (ContextOf, which BuildContext's loop computes), and gets 403 otherwise |
| Middleware.ContextualWithoutParams | app/Http/Middleware/CheckContextualPermission.php:39-69 | with no context parameters the conditions are empty and the contextual check decides exactly as the plain permission check does |
| Middleware.ScopedGrantOpensItsRecord | app/Http/Middleware/CheckContextualPermission.php:42-69 | a live temporary grant scoped to `{key: id}` passes the route bound to that record under `param:key` |
| Middleware.ScopedGrantMatchesRouteText | app/Http/Middleware/CheckContextualPermission.php:53-56 | the same grant matches the plain decimal text of the id, because PHP compares `"7" == 7` as equal |
| Middleware.AdminArea | app/Http/Middleware/AdminMiddleware.php:10-28 | a guest, and only a guest, is sent to login |
| Middleware.AdminAreaMeaning | app/Http/Middleware/AdminMiddleware.php:18-27 | the admin area admits exactly the holders of `admin` or `super-admin` |
| PostPolicy.UpdateRefinesAsWritten | app/Policies/PostPolicy.php:48-67 | wherever the written `update` returns, the corrected one returns the same; the written one throws exactly when neither `edit_others_post` nor the author's `edit_own_post` applies |
| PostPolicy.CollaboratorGrantOnUpdate | app/Policies/PostPolicy.php:65-67 | a collaborator with a live `edit_others_post` grant scoped to `{post_id}` makes the written `update` throw a TypeError, while the corrected one lets them edit |
| PostPolicy.AuthorEditWindow | app/Policies/PostPolicy.php:55-63 | an author with only `edit_own_post` may edit an unpublished post at any time and a published one exactly while fewer than 24 hours have passed since publication |
| PostPolicy.DeleteOthersNeedsPermission | app/Policies/PostPolicy.php:73-91 | deleting someone else's post is allowed exactly with `delete_others_post` |
| PostPolicy.ForceDeleteIsAdmin | app/Policies/PostPolicy.php:105-109 | force-deleting is allowed exactly for holders of `super-admin` or `admin` |
| PostPolicy.PublishMeaning | app/Policies/PostPolicy.php:114-133 | publishing needs `publish_post` and either authorship or `edit_others_post` |
| PostPolicy.EditOthersSeesAndEditsAll | app/Policies/PostPolicy.php:21-53 | `edit_others_post` lets a user view and update every post |
| PostPolicy.ViewOfStrangers | app/Policies/PostPolicy.php:21-35 | a non-author without `edit_others_post` sees exactly the published posts |
| CommentPolicy.DeleteMeaning | app/Policies/CommentPolicy.php:10-14 | a comment may be deleted exactly by its author or by a holder of `super-admin`; holding `admin` or any permission is not enough |
| PermissionService.KeyBy | app/Services/PermissionService.php:17 | every key of `keyBy('name')` maps to a row of the table bearing that name |
| PermissionService.KeyByKeys | app/Services/PermissionService.php:17 | the keys are exactly the names present in the table |
| PermissionService.KeyByAgreesWithQuery | app/Services/PermissionService.php:27-34 | with unique names, a cached lookup finds a row exactly when a query by name does, and the same row |
| PermissionService.Created | app/Services/PermissionService.php:65-82 | `create` succeeds exactly when a name is given and not yet taken; the row gets the next id and the given fillable attributes |
| PermissionService.CreatedKeepsNamesDistinct | app/Services/PermissionService.php:65-82 | inserting a created row keeps names unique |
| PermissionService.PluckNames | app/Services/PermissionService.php:55 | `pluck('name')` keeps the order and length of the rows and takes each row's name |
| PermissionService.RoleCacheHoldsRoleNames | app/Services/PermissionService.php:50-57 | the names cached for a user are exactly the names of the roles they hold |
| PermissionService.PolicyConditions | app/Services/PermissionService.php:113-117 | with ownership, `is_owner` is set to true; every other condition is passed on unchanged and nothing else is added |
| PermissionService.CheckPolicyMeaning | app/Services/PermissionService.php:92-120 | a super-admin passes every policy check; anyone else passes exactly when `userCan` with the adjusted conditions does |
| PermissionService.OwnershipOnlyWidens | app/Services/PermissionService.php:113-119 | when the caller gave no `is_owner`, owning the model never turns an allowed check into a refusal |
| PermissionService.Service.CachePermissions | app/Services/PermissionService.php:15-19 | the cache holds the whole table keyed by name |
| PermissionService.Service.GetPermission | app/Services/PermissionService.php:27-34 | an empty cache is filled from the table, a filled one is kept even if stale; the result is the cached entry for the name, if any |
| PermissionService.Service.RefreshPermissionCache | app/Services/PermissionService.php:39-43 | afterwards the cache reflects the current table |
| PermissionService.Service.RefreshUserRoleCache | app/Services/PermissionService.php:50-57 | the user's entry becomes the names of their roles in table order; other users' entries are kept |
| PermissionService.Service.CreatePermission | app/Services/PermissionService.php:65-71 | on success the row is appended, the id counter advances and the cache is refreshed; on an integrity error nothing changes |
| PermissionService.Service.CreateRole | app/Services/PermissionService.php:79-82 | on success the row is appended and the id counter advances; on an integrity error nothing changes; no cache is touched |
| PermissionService.CreatedPermissionIsCached | app/Services/PermissionService.php:65-71 | after `createPermission` the cache returns the new row for its name |
| PermissionService.StaleCacheMissesNewName | app/Services/PermissionService.php:27-34 | a cache filled before a row was inserted by another route does not know its name, while a refreshed one does |
| PermissionGroupService.GroupFrom | app/Services/PermissionGroupService.php:170-179 | from a starting group on, a group is found exactly when some later group lists the permission, and it is the key of such a group |
| PermissionGroupService.GetPermissionGroup | app/Services/PermissionGroupService.php:170-179 | the scan returns the key of the first group listing the permission, or null |
| PermissionGroupService.GroupsDisjoint | app/Services/PermissionGroupService.php:16-44 | no permission is listed in two groups |
| PermissionGroupService.GroupOfMeaning | app/Services/PermissionGroupService.php:170-179 | a permission's group is a given group exactly when that group lists it |
| PermissionGroupService.EveryGroupedPermissionIsDescribed | app/Services/PermissionGroupService.php:16-108 | every grouped permission has an entry in the description table |
| PermissionGroupService.NoDescriptionIsItsName | app/Services/PermissionGroupService.php:51-108 | no description in the table is the permission name itself |
| PermissionGroupService.GetPermissionDescription | app/Services/PermissionGroupService.php:148-151 | a described name gets its description and any other name itself |
| PermissionGroupService.DescriptionMeaning | app/Services/PermissionGroupService.php:148-151 | a grouped permission is shown with its own description, and a name is shown as itself exactly when the table does not describe it |
| PermissionGroupService.GetGroupDisplayName | app/Services/PermissionGroupService.php:159-162 | a known group key gets its display name and any other key itself |
| PermissionGroupService.GroupDisplayNameMeaning | app/Services/PermissionGroupService.php:115-162 | the display-name table covers exactly the four groups, and a key is shown as itself exactly when it names no group |
| PermissionGroupService.PolicyNamesAreUngrouped | app/Services/PermissionGroupService.php:16-44 | `edit_others_post` and `edit_own_post`, which the post policy checks, belong to no group |
| PermissionGroupService.OlderNamesAreUngrouped | app/Services/PermissionGroupService.php:16-44 | `delete_others_post` and `access_admin_area` belong to no group either |
| PermissionGroupService.Ungrouped | app/Services/PermissionGroupService.php:170-179 | a name none of the four groups lists has no group |
| PermissionGroupService.GroupList | app/Services/PermissionGroupService.php:191 | the list for a key is exactly the permissions of the group with that key, and empty for an unknown key |
| PermissionGroupService.Flatten | app/Services/PermissionGroupService.php:189-192 | `flatMap` holds exactly the elements of the lists |
| PermissionGroupService.Unique | app/Services/PermissionGroupService.php:193 | `unique()` keeps exactly the same values, each once |
| PermissionGroupService.GetPermissionNamesByGroups | app/Services/PermissionGroupService.php:204-212 | the names are exactly those listed by one of the given groups (unknown groups add none), each once |
| PermissionGroupService.GetPermissionsByGroups | app/Services/PermissionGroupService.php:187-196 | the collection holds exactly the permission rows whose names one of the given groups lists |
| PermissionGroupService.AllGroupPermissions | app/Services/PermissionGroupService.php:221-223 | every grouped name appears, each once |
| PermissionGroupService.Missing | app/Services/PermissionGroupService.php:225-227 | `diff` keeps exactly the names no row has, each once when the names are distinct |
| PermissionGroupService.Created | app/Services/PermissionGroupService.php:227-229 | one row per name is appended in order with consecutive ids; `guard_name` is not fillable and is dropped |
| PermissionGroupService.CreatedKeepsValid | app/Services/PermissionGroupService.php:219-230 | creating distinct missing names keeps ids and names unique |
| PermissionGroupService.EnsurePermissionsExist | app/Services/PermissionGroupService.php:219-230 | the table gains a row for each missing grouped name and the id counter advances by their number |
| PermissionGroupService.CreateEach | app/Services/PermissionGroupService.php:227-229 | the loop appends one row per name with consecutive ids |
| PermissionGroupService.EnsureCompletes | app/Services/PermissionGroupService.php:219-230 | afterwards every grouped permission has a row, and a second run finds nothing missing |
| PermissionGroupService.NothingMissing | app/Services/PermissionGroupService.php:225-227 | when every name has a row, `diff` is empty |
| PermissionGroupService.CachedPermissionGroups | app/Services/PermissionGroupService.php:237-256 | one entry per group in declared order, with its display name and each permission paired with its description |
| PermissionGroupService.CachedGroupsAreDescribed | app/Services/PermissionGroupService.php:115-162 | in the cached table every group shows its own display name and every permission its own description |
| PermissionInitializer.CreateAll | app/Services/PermissionInitializer.php:105-116 | creating the entries only appends rows to the table |
| PermissionInitializer.CreateAllLaws | app/Services/PermissionInitializer.php:105-116 | creating the entries keeps ids and names unique and leaves every entry's name in the table; a second run over the result creates nothing |
| PermissionInitializer.CreateAllNothingNew | app/Services/PermissionInitializer.php:107-115 | when every entry is already present, `firstOrCreate` creates nothing |
| PermissionInitializer.CreateAllAppend | app/Services/PermissionInitializer.php:61-98 | creating two lists one after the other is creating their concatenation |
| PermissionInitializer.CreatePermissionsIfNotExist | app/Services/PermissionInitializer.php:105-116 | the loop runs `firstOrCreate` on each entry in turn, with `display_name ?? name` and `description ?? null` |
| PermissionInitializer.CreateBasePermissions | app/Services/PermissionInitializer.php:61-98 | the four lists are created in order, as one list |
| PermissionInitializer.RoleStepFrame | app/Services/PermissionInitializer.php:124-177 | one `firstOrCreate` of a role keeps the roles table valid, keeps every role under its id, creates the named one and touches no other table |
| PermissionInitializer.RoleStepGrant | app/Services/PermissionInitializer.php:136-171 | one step gives the named role exactly what its names grant in the given form and leaves every other role's permissions alone |
| PermissionInitializer.BaseRolesTables | app/Services/PermissionInitializer.php:121-178 | `createBaseRoles` keeps the roles table valid and every row it had, and changes only `roles` and `role_permissions` |
| PermissionInitializer.BaseRolesFrame | app/Services/PermissionInitializer.php:121-178 | afterwards the five base roles exist |
| PermissionInitializer.BaseRolesGrants | app/Services/PermissionInitializer.php:136-171 | afterwards admin, editor and author hold exactly what their lists grant in the given form |
| PermissionInitializer.BaseRolesKeepOthers | app/Services/PermissionInitializer.php:124-127 | the super-admin and subscriber roles keep the permissions they held |
| PermissionInitializer.FirstOrCreateRole | app/Services/PermissionInitializer.php:124-127 | the role is found by name or created with the next id and the given attributes |
| PermissionInitializer.CreateRoleWith | app/Services/PermissionInitializer.php:130-143 | one role is created and, when it has a list, synced with the queried rows handed over as an array |
| PermissionInitializer.CreateBaseRoles | app/Services/PermissionInitializer.php:121-178 | the store becomes BaseRoles in the corrected, array form |
| PermissionInitializer.BaseRolesAsWrittenGrantNothing | app/Services/PermissionInitializer.php:141-143 | as written, each query result reaches `syncPermissions` as a collection, so admin, editor and author end with no permission at all; as an array admin gets its list |
| PermissionInitializer.SuperAdminEnsuredLaws | app/Services/PermissionInitializer.php:183-203 | afterwards some user is a super administrator when the role and a user exist; if someone already was, nothing changes; only the first user's roles can change |
| PermissionInitializer.EnsureSuperAdmin | app/Services/PermissionInitializer.php:183-203 | the store becomes SuperAdminEnsured of the old one |
| PermissionInitializer.SomeSuperAdminIn | app/Services/PermissionInitializer.php:191-193 | true exactly when some existing user holds a role named `super-admin` |
| PermissionInitializer.Initialize | app/Services/PermissionInitializer.php:32-56 | as intended (Findings row 1): permissions, roles and the super administrator are set up in order, and the permission cache then reflects the new table |
| PermissionInitializer.InitializedTables | app/Services/PermissionInitializer.php:32-56 | afterwards both tables are valid, every base permission exists and all five base roles exist |
| PermissionInitializer.SeededTables | app/Services/PermissionInitializer.php:36-39 | the same holds before the super administrator is ensured |
| PermissionInitializer.InitializedGrants | app/Services/PermissionInitializer.php:32-56 | as intended (Findings row 1): afterwards admin, editor and author hold the ids of exactly the permissions their lists name |
| PermissionInitializer.InitializedHasSuperAdmin | app/Services/PermissionInitializer.php:32-56 | afterwards some user is a super administrator whenever there is any user |
| PermissionInitializerService.CreateRoleIfNotExists | app/Services/PermissionInitializerService.php:90-105 | the role is looked up by name and created with `display_name ?? name` when missing; `guard_name` is not fillable and is dropped |
| PermissionInitializerService.CreateRoleIfNotExistsLaws | app/Services/PermissionInitializerService.php:90-105 | the table stays valid, the returned role bears the name and is the one a lookup finds; a new role gets the next id and the display name |
| PermissionInitializerService.CreateDefaultRole | app/Services/PermissionInitializerService.php:57-80 | one role is created and, when it has a list, synced with the queried rows handed over as an array |
| PermissionInitializerService.CreateDefaultRoles | app/Services/PermissionInitializerService.php:54-81 | the store becomes DefaultRoles in the corrected, array form |
| PermissionInitializerService.DefaultRolesGrants | app/Services/PermissionInitializerService.php:60-77 | admin, editor and author end with exactly what their groups or list grant in the given form: their permissions as an array, nothing as a collection |
| PermissionInitializerService.DefaultRolesFrame | app/Services/PermissionInitializerService.php:54-81 | the roles table stays valid, the five roles exist and only `roles` and `role_permissions` change |
| PermissionInitializerService.AllToSuperAdminEffect | app/Services/PermissionInitializerService.php:112-122 | handed over as an array, the super-admin role gets every permission; as written, the collection strips it of all; no other role changes |
| PermissionInitializerService.AssignAllPermissionsToSuperAdmin | app/Services/PermissionInitializerService.php:112-122 | the super-admin role, when present, is synced with every permission row as an array |
| PermissionInitializerService.EnsureSuperAdminExistsAsWritten | app/Services/PermissionInitializerService.php:129-137 | as written it returns unchanged when the role is missing and otherwise fails at `User::role`, which the user model does not define |
| PermissionInitializerService.SuperAdminExistsLaws | app/Services/PermissionInitializerService.php:129-150 | the written check fails exactly when the role exists; the corrected one leaves a super administrator when the role and user 1 exist and changes nothing when someone already is one |
| PermissionInitializerService.EnsureSuperAdminExists | app/Services/PermissionInitializerService.php:129-150 | as intended (Findings row 3): the store becomes SuperAdminExists of the old one: user 1, if present, is given the role when nobody holds it |
| PermissionInitializerService.PreparedFrame | app/Services/PermissionInitializerService.php:24-37 | the super-admin sync changes only `role_permissions`, and the four roles keep their ids |
| PermissionInitializerService.InitializeAsWrittenFails | app/Services/PermissionInitializerService.php:24-47 | since the default roles include super-admin, `initialize` as written always throws |
| PermissionInitializerService.InitializeAsWrittenGrantsNothing | app/Services/PermissionInitializerService.php:24-47 | as written, `initialize` leaves super-admin, admin, editor and author without any permission |
| PermissionInitializerService.PreparedGrants | app/Services/PermissionInitializerService.php:28-34 | with the corrections super-admin holds every permission, admin and editor their groups' permissions and author its four |
| PermissionInitializerService.InitializedLaws | app/Services/PermissionInitializerService.php:24-47 | with the corrections `initialize` keeps those grants and, when user 1 exists, leaves a super administrator |
| PermissionInitializerService.Initialize | app/Services/PermissionInitializerService.php:24-47 | as intended (Findings rows 2 and 3): the store becomes Initialized of the old one |
| AuthStore.FirstDangling | database/migrations/2025_03_14_035443_create_custom_permission_tables.php:49-58 | finds the first id that is neither linked already nor a row of the target table, all ids before it being one of the two, and finds none exactly when every id is |
| AuthStore.AttachChecked | database/migrations/2025_03_14_035443_create_custom_permission_tables.php:49-58 | an attach is rejected exactly when some id is neither linked nor a target row; unrejected it equals the plain attach; rejected, it names such an id and keeps only some of the plain attach's links, every new one pointing at a target row |
| AuthStore.SyncChecked | database/migrations/2025_03_14_035443_create_custom_permission_tables.php:72-81 | a checked sync rejects exactly when some id is neither linked nor a target row; unrejected it equals the plain sync; in every case the owner keeps only ids from the list, new links point at target rows and other owners' links are untouched |
| AuthStore.CheckedKeepsReferences | database/migrations/2025_03_14_035443_create_custom_permission_tables.php:95-104 | a pivot whose every link names a target row keeps that property through a checked attach or sync |
| AuthStore.QueriedIdsAreRows | app/Models/Role.php:151-175 | every id resolved from the rows a `whereIn` query returns names a row of the queried table |
| AuthStore.QueriedSyncAccepted | app/Services/PermissionInitializerService.php:67 | a checked sync with the rows of a `whereIn` query passed as an array is never rejected |
| Permissions.AttachOwnersChecked | database/migrations/2025_03_14_035443_create_custom_permission_tables.php:72-81 | attaching owners to one target is rejected exactly when some owner id is neither linked nor a row; unrejected it equals the plain attach; new links name the target and an existing owner |
| AuthStore.FindByName | app/Models/User.php:354 | `where('name', …)->first()` finds a row bearing the name, and finds none exactly when no row has it |
| AuthStore.ResolveAllMembers | app/Models/User.php:348-363 | an id is collected exactly when some element of the argument resolves to it: a name found in the table, an int, or a model of the expected class |
| AuthStore.ResolveOne | app/Models/User.php:348-363 | a one-element argument collects at most that element's id |
| AuthStore.CollectionResolvesToNothing | app/Models/User.php:348-363 | an Eloquent collection is not an array, so it is wrapped as one element that is neither string, int nor model, and no id is collected |
| AuthStore.CollectIds | app/Models/Role.php:85-102 | the `foreach` collects the ids ResolveAll describes, in order |
| AuthStore.AttachEffect | app/Models/User.php:365-367 | `syncWithoutDetaching` adds the ids to the owner's links and leaves every other owner alone |
| AuthStore.DetachEffect | app/Models/User.php:399-401 | `detach` removes the ids from the owner's links and leaves every other owner alone |
| AuthStore.SyncEffect | app/Models/User.php:433 | `sync` leaves the owner linked to exactly the ids and every other owner alone |
| AuthStore.RowsIn | app/Models/User.php:282 | the user's roles are exactly the table rows whose ids the pivot links |
| AuthStore.FirstOrCreate | app/Services/PermissionInitializer.php:108-114 | `firstOrCreate` returns the existing row with the name unchanged, or appends a new row with the next id and the given attributes |
| AuthStore.FirstOrCreateLaws | app/Services/PermissionInitializer.php:108-114 | it keeps ids and names unique, keeps every row, leaves the name present, and a second call changes nothing |
| AuthStore.WhereInGet | app/Services/PermissionInitializer.php:136-141 | `whereIn('name', …)->get()` returns exactly the rows whose names are listed, as models |
| AuthStore.WhereInGetResolves | app/Models/Role.php:151-172 | the query's models, inside a PHP array, resolve to exactly the ids of the named rows |
| AuthStore.SyncWithQueryResult | app/Models/Role.php:151-172 | syncing with a query result as an array links the owner to exactly the named rows; as the collection the query returns, to nothing |
| AuthStore.Wrap | app/Models/Role.php:155-157 | as an array the elements are visited themselves; a collection is visited as one opaque element |
| AuthStore.SyncNamedEffect | app/Models/Role.php:151-175 | the synced owner holds exactly the granted ids, and every other owner keeps its links |
| AuthStore.SyncNamedAgain | app/Models/Role.php:151-175 | syncing an owner with what it already holds changes nothing |
| AuthStore.FindUnique | app/Models/User.php:354 | with unique names, the row a table holds is the one its name finds |
| Content.Status | app/Models/Post.php:56-62 | a post reads as "published" exactly when a publication time is set |
| Content.AppendKeepsValid | app/Http/Controllers/ArticleEditorController.php:83-120 | appending a post with the next id and a free, non-empty slug keeps ids and live slugs unique |
| Content.ReplaceKeepsValid | app/Http/Controllers/ArticleEditorController.php:163-199 | saving a post with its own id and a slug no other live post uses keeps ids and live slugs unique |
| Content.OwnSlugIsNotAnothers | app/Http/Controllers/ArticleEditorController.php:170 | a live post's slug is used by no other live post, so keeping it passes the `id != ` check |
| Content.SameKeysKeepValid | app/Console/Commands/PublishScheduledPosts.php:20-24 | changing fields other than id, slug and deletion keeps the table valid |
| Content.LiveIndex | app/Http/Controllers/AuthorPostController.php:77 | route-model binding of `Post $post` (also at line 134) finds the live post with the id, or every post with that id is soft-deleted and the request is not found |
| Content.Emit | app/Http/Controllers/ArticleEditorController.php:87 | a character is written only in text, and then only itself: NUL never, `<` only before white space, `>` only when no nested `<` is open |
| Content.StripFrom | app/Http/Controllers/ArticleEditorController.php:87 | the scanner never writes more characters than it reads |
| Content.StripFromTagFree | app/Http/Controllers/ArticleEditorController.php:87 | whatever state the scanner is in, its output opens no tag and holds no NUL |
| Content.StripTags | app/Http/Controllers/ArticleEditorController.php:87 | `strip_tags` never lengthens the text, and its result opens no tag (every `<` left is followed by white space) and holds no NUL |
| Content.StripFromText | app/Http/Controllers/ArticleEditorController.php:87 | text that opens no tag passes through the scanner unchanged and leaves it in its starting state |
| Content.StripTagsKeepsExactlyTagFree | app/Http/Controllers/ArticleEditorController.php:87 | `strip_tags` leaves a text unchanged exactly when the text opens no tag and holds no NUL |
| Content.StripTagsIdempotent | app/Http/Controllers/ArticleEditorController.php:87 | stripping stripped text changes nothing |
| Content.TagRun | app/Http/Controllers/ArticleEditorController.php:87 | inside a tag, outside quotes, characters other than `<`, `>`, quotes and `!` are dropped and change no state |
| Content.QuotedRun | app/Http/Controllers/ArticleEditorController.php:87 | inside a quoted attribute value everything up to the closing quote is dropped, `>` included |
| Content.CommentRun | app/Http/Controllers/ArticleEditorController.php:87 | inside a comment everything up to `-->` is dropped, tags included |
| Content.OpenQuotedTag | app/Http/Controllers/ArticleEditorController.php:87 | `<`, a tag name and `"` put the scanner inside a quoted value, writing nothing |
| Content.CloseQuotedTag | app/Http/Controllers/ArticleEditorController.php:87 | the quoted value, its closing quote and `>` put the scanner back in text, writing nothing |
| Content.OpenComment | app/Http/Controllers/ArticleEditorController.php:87 | `<!--` puts the scanner inside a comment, writing nothing |
| Content.CloseComment | app/Http/Controllers/ArticleEditorController.php:87 | a comment body and `-->` put the scanner back in text, writing nothing |
| Content.StripTagsKeepsSpacedAngle | app/Http/Controllers/ArticleEditorController.php:87 | a `<` followed by a space is ordinary text: "a < b" is kept whole |
| Content.StripTagsRespectsQuotes | app/Http/Controllers/ArticleEditorController.php:87 | a `>` inside a quoted attribute value does not end the tag: `<a"v">rest` leaves exactly `rest` |
| Content.StripTagsDropsComments | app/Http/Controllers/ArticleEditorController.php:87 | a comment goes whole with the tags inside it: `a<!--c-->b` leaves exactly `ab` when `c` does not end the comment early (no `-->` inside it, no `>` among its first two characters) |
| Content.Utf8Length | app/Http/Controllers/ArticleEditorController.php:87 | a character takes one to four bytes in UTF-8, the unit `substr` counts |
| Content.Width | app/Models/Post.php:71 | a character is one or two columns wide, the unit `mb_strwidth` counts |
| Content.Within | app/Http/Controllers/ArticleEditorController.php:87 | the cut is a prefix within the budget, the longest one: the next character would overflow it, and a text within the budget is kept whole |
| Content.MeasuredUniform | app/Http/Controllers/ArticleEditorController.php:87 | a text whose characters all have the same size measures that size times its length |
| Content.UniformPrefix | app/Http/Controllers/ArticleEditorController.php:87 | for such a text the cut is exactly the first `c` characters, where `c` of them fit and `c + 1` do not |
| Content.AsciiByteCapacity | app/Http/Controllers/ArticleEditorController.php:87 | `substr($s, 0, 200)` keeps 200 ASCII characters |
| Content.IdeographByteCapacity | app/Http/Controllers/ArticleEditorController.php:87 | `substr($s, 0, 200)` keeps only 66 CJK ideographs, three bytes each |
| Content.IdeographColumnCapacity | app/Models/Post.php:71 | `Str::limit($s, 200)` cuts CJK ideographs at 100, two columns each |
| Content.DerivedExcerpt | app/Http/Controllers/ArticleEditorController.php:87 | the derived excerpt is the longest prefix of the tag-free content within 200 UTF-8 bytes, followed by "..."; content within 200 bytes is kept whole |
| Content.RTrim | app/Models/Post.php:71 | `rtrim` removes exactly the trailing run of its default characters (space, tab, newline, return, NUL, vertical tab) |
| Content.Limit | app/Models/Post.php:71 | `Str::limit($s, 200)` is the text itself when at most 200 columns wide; otherwise the widest prefix within 200 columns, right-trimmed of white space, followed by "..." |
| Content.SavedExcerpt | app/Models/Post.php:69-72 | the saving hook keeps a truthy excerpt; an empty or "0" one becomes the tag-free content when it fits in 200 columns, else a prefix of it within 200 columns and "..." |
| Content.PrefixMeasured | app/Models/Post.php:71 | a prefix never measures more than the text it starts |
| Content.SavedExcerptSettles | app/Models/Post.php:69-72 | saving twice gives the excerpt saving once gives |
| Content.CandidateInjective | app/Http/Controllers/ArticleEditorController.php:236-242 | different attempts never produce the same slug |
| Content.CandidateTruthy | app/Http/Controllers/ArticleEditorController.php:236-242 | every attempt from a non-empty base is non-empty and not "0" |
| Content.FirstFreeAt | app/Http/Controllers/ArticleEditorController.php:240-242 | an attempt that is free after k taken ones is the first free one |
| Content.FirstFreeIsUnique | app/Http/Controllers/ArticleEditorController.php:240-242 | there is only one first free attempt |
| Content.FewerLeft | app/Http/Controllers/ArticleEditorController.php:240-242 | each taken attempt leaves fewer taken slugs to try, so the loop ends |
| Content.FirstFreeSlug | app/Http/Controllers/ArticleEditorController.php:236-244 | the loop returns the first of `base`, `base-1`, `base-2`, … that no live post uses |
| ArticleEditorController.BaseSlug | app/Http/Controllers/ArticleEditorController.php:225-233 | the base is never empty: the slugified title when non-empty, otherwise `post-` and the timestamp |
| ArticleEditorController.StoreSlugPlan | app/Http/Controllers/ArticleEditorController.php:89-101 | the given slug is used exactly when it is non-empty and no live post has it; otherwise one is generated |
| ArticleEditorController.TitleChangeKeepsSlugAsWritten | app/Http/Controllers/ArticleEditorController.php:163-180 | as written, the title is overwritten before it is compared, so a new title sent without a slug never regenerates the slug |
| ArticleEditorController.TitleChangeRegeneratesSlug | app/Http/Controllers/ArticleEditorController.php:177-180 | as intended, with no slug given a slug is generated exactly when the title changed; the two versions differ on exactly those inputs |
| ArticleEditorController.UpdateNeverTakesAnotherPostsSlug | app/Http/Controllers/ArticleEditorController.php:167-176 | a given slug is used only when no other live post has it |
| ArticleEditorController.ChooseSlug | app/Http/Controllers/ArticleEditorController.php:89-101 | the slug is the current one, the given one, or the first free suffix of the base, as the plan says |
| ArticleEditorController.Setting | app/Http/Controllers/ArticleEditorController.php:115-118 | an absent setting takes its default (`?? true`, `?? false`) |
| ArticleEditorController.NewPost | app/Http/Controllers/ArticleEditorController.php:83-118 | the new post belongs to the user, has the chosen slug, is published exactly when the status is `published`, records a schedule exactly when `scheduled` comes with a time, and always has an excerpt; a derived one is a prefix of the tag-free content followed by "..." |
| ArticleEditorController.EditedPost | app/Http/Controllers/ArticleEditorController.php:163-197 | the edited post keeps its id, author, views and creation time; a published post keeps its publication time, and an unpublished one is published exactly when the status is `published` |
| ArticleEditorController.RepublishKeepsPublicationTime | app/Http/Controllers/ArticleEditorController.php:189-191 | re-saving a published post never moves its publication time, and it stays published |
| ArticleEditorController.WithoutDrafts | app/Http/Controllers/ArticleEditorController.php:128-130 | exactly the user's drafts attached to that post (or to no post) are removed |
| ArticleEditorController.EmptyTagList | app/Http/Controllers/ArticleEditorController.php:123-125 | on `store` an empty tag list leaves the tags alone, while on `update` (lines 202-205) it removes them all |
| ArticleEditorController.Store | app/Http/Controllers/ArticleEditorController.php:64-134 | the new post is appended with the next id and a slug no live post has, chosen as the slug plan says; tags are synced when a non-empty list is sent; the user's drafts of new posts are deleted; the table stays valid |
| ArticleEditorController.Update | app/Http/Controllers/ArticleEditorController.php:143-214 | as intended (Findings row 5): a missing post is an error that changes nothing; otherwise the post is rewritten in place with a slug no other live post has, tags are synced when a list is sent, and the user's drafts of it are deleted |
| AuthorPostController.Listing | app/Http/Controllers/AuthorPostController.php:18-36 | the listing holds exactly the user's live posts whose title matches `LIKE '%search%'` and whose publication matches a `published` or `draft` filter |
| AuthorPostController.PercentMatchesAll | app/Http/Controllers/AuthorPostController.php:26 | a lone `%` matches every title |
| AuthorPostController.LiteralPrefix | app/Http/Controllers/AuthorPostController.php:26 | a search term without wildcards followed by `%` matches exactly the titles it starts, ignoring ASCII case |
| AuthorPostController.LeadingPercent | app/Http/Controllers/AuthorPostController.php:26 | a leading `%` lets the rest of the pattern match from any position |
| AuthorPostController.SearchIsCaseFoldedSubstring | app/Http/Controllers/AuthorPostController.php:26 | with a search free of `%` and `_`, a title is listed exactly when it contains the search, ignoring ASCII case |
| AuthorPostController.UnderscoreMatchesAnyTitle | app/Http/Controllers/AuthorPostController.php:26 | `_` is a wildcard, not a literal: searching for it matches exactly the non-empty titles |
| AuthorPostController.UnknownStatusFiltersNothing | app/Http/Controllers/AuthorPostController.php:30-36 | a status filter other than `published` and `draft` lists every post of the author |
| AuthorPostController.SortPlan | app/Http/Controllers/AuthorPostController.php:39-56 | no sort value means newest first, and a column sorted by is always one of the four allowed |
| AuthorPostController.SortPlanMeaning | app/Http/Controllers/AuthorPostController.php:39-53 | `field,direction` sorts a known column ascending only for exactly `asc` and otherwise falls back to oldest first; anything after a second comma is ignored |
| AuthorPostController.AscIsOnlyItself | app/Http/Controllers/AuthorPostController.php:41 | the loose `in_array` test matches `asc` only for the text `asc` itself |
| AuthorPostController.SortWithoutCommaFails | app/Http/Controllers/AuthorPostController.php:40 | a sort value without a comma leaves `$direction` unset and the request fails |
| AuthorPostController.Updated | app/Http/Controllers/AuthorPostController.php:95-123 | the update fails with an undefined-key error exactly when title and content are unchanged and the excerpt key is missing, or the excerpt is unchanged and the category key is missing; otherwise id, slug, author and deletion are kept, a field not sent keeps its column, `draft` clears the publication time, `published` sets it only when unset, any other status keeps it |
| AuthorPostController.Assigned | app/Http/Controllers/AuthorPostController.php:121 | a key not sent keeps the stored value, a key sent empty stores null, a sent value is stored |
| AuthorPostController.Image | app/Http/Controllers/AuthorPostController.php:96-106 | an uploaded file wins, then a truthy URL; otherwise an empty `featured_image` key clears the image and a missing one keeps it |
| AuthorPostController.UpdateMissingKeys | app/Http/Controllers/AuthorPostController.php:116-119 | re-sending title and content unchanged without an excerpt key always fails; a request carrying both the excerpt and the category keys never does |
| AuthorPostController.EmptyImageFieldClears | app/Http/Controllers/AuthorPostController.php:96-106 | with no URL, an empty `featured_image` field removes the image while an absent one keeps it |
| AuthorPostController.UnpublishRestartsWindow | app/Http/Controllers/AuthorPostController.php:108-113 | when both updates go through, saving as draft and then publishing again gives a new publication time, so the author's 24-hour window restarts |
| AuthorPostController.Update | app/Http/Controllers/AuthorPostController.php:77-132 | as intended (Findings row 4): a missing post is not found; without the super-admin gate or the update policy the request is refused and nothing changes; an update that reads a missing key fails and changes nothing; otherwise the post is rewritten in place and its tags synced when sent |
| AuthorPostController.Destroy | app/Http/Controllers/AuthorPostController.php:134-142 | when the gate or the delete policy allows it, the post is soft-deleted and nothing else changes; otherwise it is refused |
| AuthorPostController.DeletedPostIsGone | app/Http/Controllers/AuthorPostController.php:138 | after a soft delete no query finds the post, and its slug is free again |
| AuthorPostController.StoreBase | app/Http/Controllers/AuthorPostController.php:185 | the base slug is never empty: the slugified title, or else a slugified random string |
| AuthorPostController.Created | app/Http/Controllers/AuthorPostController.php:181-198 | the new post belongs to the user, has the chosen slug and is published exactly when the status is `published` |
| AuthorPostController.Store | app/Http/Controllers/AuthorPostController.php:152-208 | the new post is appended with the next id and the first free numbered variant of the base slug; tags are synced when sent; the table stays valid |
| AuthorPostController.Restore | app/Http/Controllers/AuthorPostController.php:210-222 | restoring always fails: refused without the gate or policy, not found for another post's revision, and otherwise at `restoreFromRevision`, which the post model does not define |
| DraftController.Newest | app/Http/Controllers/Api/DraftController.php:101-104 | the draft picked is in scope and updated no earlier than any other draft in scope; there is none exactly when no draft is in scope |
| DraftController.First | app/Http/Controllers/Api/DraftController.php:96-98 | the draft picked is the first one in scope; there is none exactly when no draft is in scope |
| DraftController.GetLatest | app/Http/Controllers/Api/DraftController.php:26-41 | the draft returned is the user's own and was updated no earlier than any of their drafts; there is none (404) exactly when the user has no draft |
| DraftController.Target | app/Http/Controllers/Api/DraftController.php:83-115 | a sent post id that names no live post or another author's post is refused; otherwise the draft picked belongs to the user and that post (or to no post), and a new draft is made exactly when none does |
| DraftController.MergeLaws | app/Http/Controllers/Api/DraftController.php:118-126 | sending nothing keeps the draft, sending the same fields twice equals sending them once, and a later sent value wins |
| DraftController.SavedFieldsAsWritten | app/Http/Controllers/Api/DraftController.php:108-128 | as written, a save succeeds only with a status, so a new draft sent without one fails at the NOT NULL column |
| DraftController.SavedFields | app/Http/Controllers/Api/DraftController.php:118-128 | as intended, a saved draft always has a status, and the sent one when sent |
| DraftController.NewDraftStatus | app/Http/Controllers/Api/DraftController.php:108-128 | a new draft without a status fails as written and is stored as `draft` as intended; where the written code succeeds the two agree |
| DraftController.SavedDraftIsFoundAgain | app/Http/Controllers/Api/DraftController.php:96-115 | after a save creates a draft, the next save for the same user and post picks that draft |
| DraftController.Resaved | app/Http/Controllers/Api/DraftController.php:118-128 | a re-saved draft keeps its id, owner and post, takes the merged fields, and gets the new time exactly when some field changed (a clean model is not written) |
| DraftController.EmptyResaveIsClean | app/Http/Controllers/Api/DraftController.php:118-128 | a save that sends nothing leaves an existing draft exactly as it was, timestamp included |
| DraftController.Store | app/Http/Controllers/Api/DraftController.php:63-128 | as intended (Findings row 7): a refused save changes nothing; otherwise a new draft is appended with the next id, or the picked draft alone is rewritten with the merged fields, its time renewed only when a field changed |
| DraftController.FindDraft | app/Http/Controllers/Api/DraftController.php:161 | the index found holds the draft with that id; none exactly when no draft has it |
| DraftController.DestroyTarget | app/Http/Controllers/Api/DraftController.php:161-175 | an unknown id is not found (404), another user's draft is refused (403), and otherwise the draft found is the user's own |
| DraftController.DestroyOnlyOwnDrafts | app/Http/Controllers/Api/DraftController.php:170-175 | a user cannot delete a draft that belongs to someone else |
| DraftController.Destroy | app/Http/Controllers/Api/DraftController.php:157-183 | on refusal the drafts are unchanged; otherwise exactly the draft found is removed |
| PublishScheduledPosts.PublishedAsWritten | app/Console/Commands/PublishScheduledPosts.php:21-24 | as written the post is published now but keeps its schedule, since mass assignment drops the non-fillable `scheduled_publish_at` |
| PublishScheduledPosts.Published | app/Console/Commands/PublishScheduledPosts.php:21-24 | as intended the post is published now, no longer scheduled, and keeps its id, slug, title, content and deletion |
| PublishScheduledPosts.UnpublishedPostStaysDueAsWritten | app/Console/Commands/PublishScheduledPosts.php:15-24 | a published post moved back to draft is due again as written and stays a draft as intended |
| PublishScheduledPosts.PublishAll | app/Console/Commands/PublishScheduledPosts.php:15-24 | as intended (Findings row 6): one run publishes exactly the live, unpublished posts scheduled no later than now, in place, and leaves every other post as it was |
| PublishScheduledPosts.RunIsIdempotent | app/Console/Commands/PublishScheduledPosts.php:15-18 | after a run nothing is due, a second run at the same time changes nothing, and every changed post was due and is now published |
| PublishScheduledPosts.Handle | app/Console/Commands/PublishScheduledPosts.php:13-30 | as intended (Findings row 6): the loop leaves the table equal to one run's result and keeps it valid |
| JsText.Lower | resources/js/utils/text.js:19 | lower-casing leaves no upper-case ASCII letter and keeps every other character |
| JsText.ToLower | resources/js/utils/text.js:19 | `toLowerCase` keeps the length and lower-cases each character in place |
| JsText.TrimStart | resources/js/utils/text.js:20 | the result is a suffix of the text that does not start with white space, and text not starting with white space is kept whole |
| JsText.TrimEnd | resources/js/utils/text.js:20 | the result is a prefix of the text that does not end with white space, and text not ending with white space is kept whole |
| JsText.Trim | resources/js/utils/text.js:20 | `trim` leaves no white space at either end, adds no character, and keeps text without white space whole |
| JsText.TrimStartEmpty | resources/js/utils/text.js:20 | trimming the start leaves nothing exactly when the text is all white space |
| JsText.TrimEmpty | resources/js/utils/text.js:20 | `trim` leaves nothing exactly when the text is all white space |
| JsText.DashSpaces | resources/js/utils/text.js:21 | after `replace(/\s+/g, '-')` no white space is left and every character is a dash or came from the text |
| JsText.KeepOnly | resources/js/utils/text.js:22 | the filter keeps only word characters and dashes (and CJK characters on the CJK branch), adds nothing, and keeps text made only of them |
| JsText.Collapse | resources/js/utils/text.js:23 | after `replace(/--+/g, '-')` no two dashes are adjacent, the first character is kept, and text without a double dash is unchanged |
| JsText.DropLeadingDashes | resources/js/utils/text.js:24 | `^-+` removed: no leading dash remains, no character or double dash is added, and text not starting with a dash is unchanged |
| JsText.DropTrailingDashes | resources/js/utils/text.js:24 | `-+$` removed: no trailing dash remains, the first character is kept, no character or double dash is added, and text not ending with a dash is unchanged |
| JsText.TrimDashes | resources/js/utils/text.js:24 | `replace(/^-+\|-+$/g, '')` leaves no dash at either end, creates no double dash and adds no character |
| JsText.DashSpacesKeepsPlain | resources/js/utils/text.js:21 | `replace(/\s+/g, '-')` leaves text without white space unchanged |
| JsText.PipelineIsSlug | resources/js/utils/text.js:31-38 | the Latin chain always yields a well-formed slug: lower-case word characters and single inner dashes only |
| JsText.PipelineFixesSlugs | resources/js/utils/text.js:31-38 | a well-formed slug passes through the Latin chain unchanged |
| JsText.Timestamp | resources/js/utils/text.js:16 | the clock suffix has one to six digits |
| JsText.RemoveHan | resources/js/utils/text.js:27 | no CJK character is left after `replace(/[一-龥]/g, '')` |
| JsText.Slugify | resources/js/utils/text.js:6-40 | empty text gives the empty slug; text without CJK characters gives a well-formed slug; text with one ends in a dash and the clock's last digits |
| JsText.SlugifyIdempotent | resources/js/utils/text.js:29-39 | slugifying a Latin slug again gives the same slug |
| JsText.AfterClose | resources/js/utils/text.js:53 | the rest after the first `>` is strictly shorter when there is one, and adds no character |
| JsText.StripHtml | resources/js/utils/text.js:53 | `replace(/<[^>]*>/g, '')` leaves no tag, adds no character and never lengthens the text |
| JsText.StripHtmlKeepsPlainText | resources/js/utils/text.js:53 | text without a tag is left as it is |
| JsText.StripHtmlIdempotent | resources/js/utils/text.js:152-155 | stripping tags twice is the same as stripping them once |
| JsText.HasHtmlTags | resources/js/utils/text.js:142-145 | `hasHtmlTags` holds exactly when some `<` has a `>` after it |
| JsText.StripHtmlTags | resources/js/utils/text.js:152-155 | `stripHtmlTags` leaves text that `hasHtmlTags` rejects, and keeps text without tags |
| JsText.Truncate | resources/js/utils/text.js:49-60 | empty text gives nothing; tag-free text that fits is returned whole; longer text is cut to the length and gets the suffix |
| JsText.TruncateBound | resources/js/utils/text.js:55-59 | a truncated text is never longer than the length plus the suffix |
| JsText.RunsAlternate | resources/js/utils/text.js:174 | word runs and white-space runs alternate, so their counts differ only by what the ends are |
| JsText.WordRunsSpaceAfter | resources/js/utils/text.js:174 | a trailing white-space character adds no word |
| JsText.WordRunsTrimEnd | resources/js/utils/text.js:174 | trimming the end keeps the number of words |
| JsText.WordRunsTrimStart | resources/js/utils/text.js:174 | trimming the start keeps the number of words |
| JsText.CountWordsMeaning | resources/js/utils/text.js:172-175 | `countWords` is 0 for empty text, 1 for text of white space alone, and otherwise the number of maximal runs of non-space characters |
| JsText.CeilDiv | resources/js/utils/text.js:78 | `Math.ceil(n / d)` is 0 for 0 and otherwise the least whole number of `d`s covering `n` |
| JsText.CeilDivOne | resources/js/utils/text.js:78 | one word takes one minute at any rate |
| JsText.ReadingTimeCountsWords | resources/js/utils/text.js:68-79 | `readingTime` of non-empty text is the word count of its tag-free text divided by the rate, rounded up |
| JsText.ReadingTimeMeaning | resources/js/utils/text.js:68-79 | empty text reads in 0 minutes, white space or tags alone in 1, and other text in its words over the rate rounded up |
| JsText.RemoveSpaces | resources/js/utils/text.js:164 | `replace(/\s/g, '')` leaves no white space and never lengthens the text |
| JsText.CountCharactersAppend | resources/js/utils/text.js:162-165 | `countCharacters` adds up over concatenation |
| JsText.CountCharactersOne | resources/js/utils/text.js:162-165 | a single character counts 0 when it is white space and 1 otherwise |
| JsText.IndexOf | resources/js/utils/text.js:90 | the position found is the first at or after the start holding the character; none when no such position exists |
| JsText.ImageAt | resources/js/utils/text.js:90 | an image found at a position has a non-empty URL without `)` |
| JsText.ImageFrom | resources/js/utils/text.js:90-91 | the position found is the leftmost one at or after the start that holds an image; none exactly when no such position holds one |
| JsText.ExtractFirstImageUrl | resources/js/utils/text.js:86-94 | `extractFirstImageUrl` gives the non-empty URL of the leftmost Markdown image, or null exactly when there is none |
| JsText.ExtractWrittenImage | resources/js/utils/text.js:86-94 | the URL written into `![alt](url)` is extracted back unchanged |
| ReadingEstimate.DropLetters | resources/js/utils/readingTime.js:7 | a leading run of ASCII letters is dropped whole, and what remains does not start with one |
| ReadingEstimate.UnitsZero | resources/js/utils/readingTime.js:7 | nothing is counted exactly when the text has neither a CJK character nor an ASCII letter |
| ReadingEstimate.HanCountsEach | resources/js/utils/readingTime.js:7 | each CJK character counts as one word |
| ReadingEstimate.LettersCountOnce | resources/js/utils/readingTime.js:7 | a run of ASCII letters counts as one word, however long |
| ReadingEstimate.EstimateBands | resources/js/utils/readingTime.js:1-11 | the estimate is 0 with nothing to count, 1 for 1 to 300 words, and otherwise the words over 300 rounded up |
| ReadingEstimate.EstimateIgnoresTags | resources/js/utils/readingTime.js:3 | tags add nothing to the estimate |
| ReadingEstimate.WhiteSpaceEstimates | resources/js/utils/readingTime.js:1-11 | white space alone reads in 0 minutes here but in 1 minute by `readingTime` in the text helpers |
| RelativeTime.Elapsed | resources/js/utils/date.js:27 | the elapsed seconds are the millisecond difference rounded down |
| RelativeTime.TimeAgo | resources/js/utils/date.js:24-47 | a missing date gives nothing; otherwise each unit applies exactly when the elapsed time is at least two of it and under two of the next, below ten seconds is "just now" and the rest is seconds |
| RelativeTime.TimeAgoCounts | resources/js/utils/date.js:29-46 | the number shown is the elapsed time in whole units, rounded down |
| RelativeTime.TimeAgoExamples | resources/js/utils/date.js:29-44 | ninety minutes read as minutes, one year as twelve months, and a future date as "just now" |
| RelativeTime.Render | resources/js/utils/date.js:24-47 | the phrase is empty exactly for a missing date |
| EditorStore.WithoutKey | resources/js/stores/articleEditor.js:171 | the filter keeps exactly the tags whose id differs from the key, and a list without duplicates stays so |
| EditorStore.FirstIndex | resources/js/stores/articleEditor.js:177 | `indexOf` finds the first position holding the tag, and none exactly when the tag is absent |
| EditorStore.RemoveAtKeepsDistinct | resources/js/stores/articleEditor.js:178-179 | splicing one position out of a list without duplicates leaves no copy of the removed tag and no duplicate |
| EditorStore.Prefix200 | resources/js/stores/articleEditor.js:117 | `slice(0, 200)` is a prefix of at most 200 characters, the whole text when it is that short |
| EditorStore.Loaded | resources/js/stores/articleEditor.js:256-279 | loading keeps the step, save time, custom message and editor settings, clears the custom-slug and unsaved flags, always has a status, and keeps every setting the post does not override |
| EditorStore.ArticleEditor.constructor | resources/js/stores/articleEditor.js:10-48 | the store starts on step 1 with empty fields, status `draft`, the default settings and nothing unsaved |
| EditorStore.ArticleEditor.CanPublish | resources/js/stores/articleEditor.js:53-57 | publishing is possible exactly when both the title and the content hold a character other than white space and a category (non-zero id) is chosen |
| EditorStore.ArticleEditor.LastSaveStatus | resources/js/stores/articleEditor.js:59-67 | a custom message wins, then "not saved" when never saved, then the last save time |
| EditorStore.ArticleEditor.NextStep | resources/js/stores/articleEditor.js:76-80 | the step moves forward one but never past 3; nothing else changes |
| EditorStore.ArticleEditor.PrevStep | resources/js/stores/articleEditor.js:85-89 | the step moves back one but never before 1; nothing else changes |
| EditorStore.ArticleEditor.GoToStep | resources/js/stores/articleEditor.js:94-98 | only a target within 1..3 is taken; otherwise nothing changes |
| EditorStore.ArticleEditor.SetTitle | resources/js/stores/articleEditor.js:103-109 | the title is set, the slug is derived from it only while the slug is empty, and a change is marked |
| EditorStore.ArticleEditor.SetContent | resources/js/stores/articleEditor.js:114-120 | the content is set, the excerpt becomes its first 200 characters and "..." only while the excerpt is empty, and a change is marked |
| EditorStore.ArticleEditor.SetExcerpt | resources/js/stores/articleEditor.js:125-128 | the excerpt is set and a change is marked; nothing else changes |
| EditorStore.ArticleEditor.SetSlug | resources/js/stores/articleEditor.js:133-136 | the slug becomes the slugified input, a well-formed slug for Latin input, and a change is marked |
| EditorStore.ArticleEditor.SetCustomSlug | resources/js/stores/articleEditor.js:141-145 | as setting the slug, and the slug is marked as chosen by hand |
| EditorStore.ArticleEditor.SetCategory | resources/js/stores/articleEditor.js:150-153 | the category is set and a change is marked |
| EditorStore.ArticleEditor.AddTag | resources/js/stores/articleEditor.js:158-163 | a tag already listed changes nothing; a new one is appended and marks a change; the list gains no duplicate |
| EditorStore.ArticleEditor.RemoveTag | resources/js/stores/articleEditor.js:168-182 | by id every tag with it goes and a change is always marked; by object its first occurrence goes and a change is marked only if it was there; no duplicate appears and a removed object is gone |
| EditorStore.ArticleEditor.SetTags | resources/js/stores/articleEditor.js:187-190 | the tag list is replaced and a change is marked |
| EditorStore.ArticleEditor.SetStatus | resources/js/stores/articleEditor.js:195-198 | the status is set and a change is marked |
| EditorStore.ArticleEditor.SetScheduledTime | resources/js/stores/articleEditor.js:203-206 | the scheduled time is set and a change is marked |
| EditorStore.ArticleEditor.SetFeaturedImage | resources/js/stores/articleEditor.js:211-214 | the featured image is set and a change is marked |
| EditorStore.ArticleEditor.SetFeaturedImageUrl | resources/js/stores/articleEditor.js:219-221 | has the same effect as setting the featured image |
| EditorStore.ArticleEditor.UpdateSettings | resources/js/stores/articleEditor.js:226-229 | the given settings override, the others stay, and a change is marked |
| EditorStore.ArticleEditor.UpdateEditorSettings | resources/js/stores/articleEditor.js:234-236 | the given editor settings override the others without marking a change |
| EditorStore.ArticleEditor.MarkAsChanged | resources/js/stores/articleEditor.js:241-243 | only the unsaved flag is raised |
| EditorStore.ArticleEditor.MarkAsSaved | resources/js/stores/articleEditor.js:248-251 | the unsaved flag is cleared and the save time stamped, so the status shows that time unless a custom message is set |
| EditorStore.ArticleEditor.LoadPost | resources/js/stores/articleEditor.js:256-279 | no post changes nothing; otherwise the state is the loaded state |
| EditorStore.ArticleEditor.Reset | resources/js/stores/articleEditor.js:284-309 | every ref returns to its starting value except the custom save message, which `$reset` leaves alone |
| Php.Explode | app/Models/User.php:183 | `explode` gives at least one piece, no piece holds the separator, and a string without it is its own only piece |
| Php.JoinExplode | app/Http/Middleware/CheckRoleOrPermission.php:35 | exploding loses nothing: joining the pieces with the separator gives the string back |
| Php.ExplodeAtFirst | app/Http/Middleware/CheckContextualPermission.php:44 | the first piece is the text before the first separator and the rest are the pieces of what follows it |
| Php.LooseEqSymmetric | app/Models/TemporaryPermission.php:82 | PHP 8 loose `==` between scalars is symmetric and reflexive |
| Php.IntMatchesItsDecimalString | app/Models/TemporaryPermission.php:82 | a stored integer condition loosely equals the route string that spells it, in both orders |
| Php.PlainNumeric | app/Models/TemporaryPermission.php:82 | text with no surrounding whitespace, sign, exponent marker or point is a numeric string exactly when it is all digits |
| Php.NumericDigits | app/Models/TemporaryPermission.php:82 | a run of digits is numeric and worth its own decimal value |
| Php.PointNumber | app/Models/TemporaryPermission.php:82 | digits, a point and digits spell the digits together, scaled down by the length of the fraction |
| Php.NumericPoint | app/Models/TemporaryPermission.php:82 | digits, a point and digits are a numeric string worth the digits together, scaled down by the length of the fraction |
| Php.SameValueScaled | app/Models/TemporaryPermission.php:82 | trailing zeros do not change a number, in both directions of the comparison |
| Php.NumericEquality | app/Models/TemporaryPermission.php:82 | an integer or numeric string compared with a numeric string compares by value |
| Php.LooseEqDecimalPoint | app/Models/TemporaryPermission.php:82 | a point and a zero do not change a whole number: `"1.0" == "1"` and `1 == "1.0"` for every run of digits |
| Php.LooseEqExponent | app/Models/TemporaryPermission.php:82 | an exponent scales the mantissa: `"1e3" == 1000` |
| Php.LooseEqSpaced | app/Models/TemporaryPermission.php:82 | surrounding whitespace is ignored: `" 2 " == 2` |
| Php.LooseEqNonNumeric | app/Models/TemporaryPermission.php:82 | a non-numeric string compares as a string: `"abc" == 0` and `"1abc" == 1` are both false |

## Left out

- Database access, query builders, pagination, eager loading and rendering are not modelled. Tables are sequences, sets and maps, and a request's answer is a datatype. An Inertia redirect, a JSON 403 and `abort(403)` are one refusal.
- Request validation is not modelled. Inputs are taken as already validated, and a validation failure is not an outcome.
- The permission service's cache is two fields of `PermissionService.Service`. Its time-to-live and the `Cache` facade are not modelled.
- The cached permission groups are modelled only as the value computed for the cache. Logging calls are dropped everywhere.
- Impersonation is modelled only through the session's three values, the acting user and who impersonates since when. Login, logout and the session store are not modelled, and neither are the impersonation controllers.
- `authorize` is the super-admin `Gate::before` check followed by the policy. The framework's gate registration is not part of this model.
- `Str::slug`, `Str::random`, `now()`, the `YmdHis` stamp and `new Date()` are not computed. Their results are parameters.
- PublishScheduledPosts.PublishAll: one `now` is used for the query and for every post it publishes; Handle passes it the same one. The command reads the clock once for the query (app/Console/Commands/PublishScheduledPosts.php:16) and again for each post it publishes (line 22), so each post's `published_at` can be a little later than the cut-off the query used.
- The post model's query scopes are not modelled. Neither are the parts of its saving hooks that read the logged-in user or the request. Of the `saving` hook (app/Models/Post.php:69-80) only the excerpt rule is kept: the `Str::slug(title)` fallback and the `clean()` HTML purifier that rewrites `content` on every save (line 79) are not modelled. The excerpt is derived from the content before `clean()` runs (lines 70-72 come before line 79), so the model's excerpt is the one the hook stores, while the model's stored content is the content as given, not as purified.
- Uploaded images are modelled as the URL they are stored under. The upload itself is not modelled.
- AuthorPostController.Restore: only its refusals and its failure are modelled. A successful restore has no effect to model, because `restoreFromRevision` does not exist on the post model.
- PostPolicy.AuthorEditWindow: Carbon's `diffInHours` is taken as the signed whole-hour difference. A post dated in the future is therefore inside the 24-hour window; an absolute difference would exclude one dated 24 hours or more ahead.
- `formatDate`, `formatTime` and `generateRandomString` are not modelled. They depend on the locale or on `Math.random`.
- `DraftService.js`, `useDraftSync.js` and the other browser-side modules are not modelled. They are storage, network, timers and UI.
- JsText.Lower: `toLowerCase` is modelled on ASCII letters only. Other characters are kept as they are.
- Strings are sequences of characters. JavaScript lengths count UTF-16 code units, so the two agree only below U+10000.
- JsText.ReadingTimeMeaning: the rate is taken to be positive. A rate of 0 would give `Infinity` or `NaN`, which the model does not represent.
- EditorStore.ArticleEditor.GoToStep: the target is a whole number. A fractional target such as 1.5 passes the range test in JavaScript and is not modelled.
- RelativeTime.TimeAgo: a date is given in milliseconds or is absent. An unparsable date string, which JavaScript turns into `NaN`, is not modelled.
- EditorStore.ArticleEditor.LastSaveStatus: a saved time is returned as the instant. Its locale-formatted text is not modelled.
- The editor store's settings are maps from names to booleans. Tags are objects with an identity and an id.
- The store's refs are grouped into a few datatype-valued fields. Each method still states the whole new state.
- Content.StripTags: PHP's separate scanner state for `<?` processing instructions is not modelled; such a block is scanned as an ordinary tag. The allowed-tags argument is not modelled either, since the source never passes one.
- Content.DerivedExcerpt: `substr` counts bytes and can cut a multi-byte character in half. The model works on characters, so a character cut this way is dropped whole instead of leaving its first bytes.
- Content.Width: the double-width ranges approximate the East Asian width table of `mb_strwidth`; combining and zero-width characters count one column here.
- AuthorPostController.Listing: the LIKE escape character `\` is not modelled, and case folding covers ASCII letters only; the database collation's accent and non-ASCII case rules are not modelled.
- AuthorPostController.Updated: `category_id` is taken as an integer. A form sends it as a string, which only changes what the unused `$hasContentChanges` flag would say, not whether a key is missing.
- InitializedGrants (`PermissionInitializer`): proves the grants of the corrected, array-form sync. As written the three roles end with no permission at all, which `PermissionInitializer.BaseRolesAsWrittenGrantNothing` proves (Findings row 1).
- Initialize (`PermissionInitializerService`): states the corrected run. As written the run throws at `User::role` after the role syncs, which `PermissionInitializerService.InitializeAsWrittenFails` proves (Findings rows 2 and 3).
- Handle (`PublishScheduledPosts`): states the corrected publish, which clears the schedule. As written the schedule stays, which `PublishScheduledPosts.PublishedAsWritten` states (Findings row 6).
- Php.LooseEq: numeric strings are compared as exact decimals. PHP converts a string with a point or an exponent to an IEEE double first, so two decimals that differ beyond double precision compare equal in PHP and unequal here. Float scalars, hexadecimal and `INF` are not modelled.
- ReadingEstimate: `estimateReadingTime` throws on `null` content, and that case is not modelled. The content is always a string.

- A pivot insert that a foreign key refuses (database/migrations/2025_03_14_035443_create_custom_permission_tables.php:49-58, 72-81, 95-104) throws a `QueryException`. The model returns the refused id instead of throwing. `sync` and `syncWithoutDetaching`, which these models call, insert each new id with its own `attach` statement and no transaction, so the rows inserted before the refused one stay, and the model keeps them too.
- Row lookups by name and slug: a `where(column, value)` query is modelled as exact, case-sensitive comparison. Under a case-insensitive MySQL collation (`utf8mb4_unicode_ci`, say) `=` folds case, so `where('name', 'Admin')` finds `admin`, and the unique index refuses `Admin` next to `admin`. The database connection's collation is not part of this model. Only LIKE folds ASCII case in the model. The following lines list the members this affects.
- AuthStore.FindByName: finds a row only when its name is equal to the given one character for character. Under a case-insensitive collation it would also find a row whose name differs only in case.
- PermissionService.KeyByAgreesWithQuery: the cache keyed by exact name agrees with the exact-comparison query. Under a case-insensitive collation the query also finds a case variant, which the cache keyed by the stored name misses.
- PermissionService.Created: `DuplicateName` is reported only for a name already stored exactly. Under a case-insensitive collation the unique index would also reject a name that differs from a stored one only in case.
- Content.FirstFreeSlug: a slug counts as taken only when a live post has exactly that slug. Under a case-insensitive collation the `exists()` test at app/Http/Controllers/ArticleEditorController.php:240 would also count a slug that differs only in case.
- ArticleEditorController.StoreSlugPlan: the given slug is kept when no live post has exactly that slug (line 95). Under a case-insensitive collation a slug differing only in case would also count as taken, and the same holds for the tests at lines 170 and 240.

## Findings

| source | as written | input that shows it | evidently intended | confidence | as-written member | corrected member |
|---|---|---|---|---|---|---|
| app/Services/PermissionInitializer.php:136-171 | each role's permissions are fetched with `->get()`, and the resulting Eloquent collection is passed to `syncPermissions`, which unpacks only PHP arrays; the collection resolves to no id, so every sync detaches all the role's permissions | `initialize` on a store that holds every base permission: admin, editor and author end with none | each role holds exactly the listed permissions that exist | not executed | PermissionInitializer.BaseRolesAsWrittenGrantNothing | PermissionInitializer.BaseRolesGrants |
| app/Services/PermissionInitializerService.php:54-122 | the same collection-to-`syncPermissions` call for admin, editor, author and super-admin | `initialize` after the group permissions exist: the four roles end without permissions | super-admin holds every permission and each other role its groups' permissions | not executed | PermissionInitializerService.InitializeAsWrittenGrantsNothing | PermissionInitializerService.PreparedGrants |
| app/Services/PermissionInitializerService.php:137 | `User::role('super-admin')` calls a scope the user model does not define, so the call throws | any store in which the super-admin role exists, which `initialize` always creates | user 1 becomes super administrator when nobody holds the role, and nothing changes otherwise | not executed | PermissionInitializerService.EnsureSuperAdminExistsAsWritten | PermissionInitializerService.SuperAdminExistsLaws |
| app/Policies/PostPolicy.php:65-67 | the last fallback of `update` passes `null` as the array-typed context and puts `{post_id}` in an extra argument, a TypeError in PHP 8 | a non-author without `edit_others_post` who holds a live temporary `edit_others_post` grant scoped to `{post_id}` | the scoped temporary grant is checked against `{post_id}` and allows the edit | not executed | PostPolicy.CollaboratorGrantOnUpdate | PostPolicy.UpdateRefinesAsWritten |
| app/Http/Controllers/ArticleEditorController.php:163-180 | the title is assigned at line 163 before the "title changed" test at line 178, so the test is always false | an update that sends a new title and no slug keeps the old slug | a changed title with no slug sent regenerates the slug | not executed | ArticleEditorController.TitleChangeKeepsSlugAsWritten | ArticleEditorController.TitleChangeRegeneratesSlug |
| app/Console/Commands/PublishScheduledPosts.php:21-24 | `update` clears `scheduled_publish_at` by mass assignment, but the post model does not list it as fillable, so the schedule stays | a post published by the command and later moved back to draft is due again and published on the next run | a published post is no longer scheduled | not executed | PublishScheduledPosts.UnpublishedPostStaysDueAsWritten | PublishScheduledPosts.RunIsIdempotent |
| app/Http/Controllers/Api/DraftController.php:124 | on a new draft `$data['status'] ?? $draft->status` writes an explicit NULL into the NOT NULL `status` column, whose default therefore never applies | an autosave with no post id, no earlier draft and no status fails | the new draft is stored with status `draft` | not executed | DraftController.SavedFieldsAsWritten | DraftController.NewDraftStatus |
