/** The authorization rules for posts: who may list, view, create, update,
    delete, restore, force-delete and publish them. */
module PostPolicy {
  import opened Common
  import opened Php
  import opened TemporaryPermissions
  import opened AuthStore
  import opened Users
  import opened Content

  /** `hasPermissionTo($name)` with no context conditions. */
  predicate Perm(s: Store, u: int, name: string, now: int) {
    HasPermissionTo(s, u, ByName(name), map[], now)
  }

  /** `viewAny`. */
  predicate ViewAny(s: Store, u: int, now: int) {
    Perm(s, u, "access_admin_area", now)
  }

  /** `view`: a published post is public; the author and holders of
      `edit_others_post` see the others. */
  predicate View(s: Store, u: int, post: Post, now: int) {
    Status(post) == "published" || u == post.authorId || Perm(s, u, "edit_others_post", now)
  }

  /** `create`. */
  predicate Create(s: Store, u: int, now: int) {
    Perm(s, u, "create_post", now)
  }

  /** The author's 24-hour window on a published post: fewer than 24 hours
      since publication, measured signed, so a post dated in the future is
      inside the window. */
  predicate WithinWindow(post: Post, now: int) {
    Status(post) == "published" && post.publishedAt.Some? ==> now - post.publishedAt.value < 86400
  }

  /** An exception escaping a policy. */
  datatype PolicyError = TypeError

  /** `update` as written: its last step passes null where `hasPermissionTo`
      declares an `array` parameter, which PHP 8 rejects with a TypeError. */
  function UpdateAsWritten(s: Store, u: int, post: Post, now: int): Result<bool, PolicyError> {
    if Perm(s, u, "edit_others_post", now) then Ok(true)
    else if u == post.authorId && Perm(s, u, "edit_own_post", now) then Ok(WithinWindow(post, now))
    else Err(TypeError)
  }

  /** The conditions a collaborative grant on this post is scoped by. */
  function PostContext(post: Post): map<string, Scalar> {
    map["post_id" := Int(post.id)]
  }

  /** `update` as intended: `edit_others_post` anywhere, the author within the
      window, or a temporary `edit_others_post` grant scoped to this post. */
  predicate Update(s: Store, u: int, post: Post, now: int) {
    if Perm(s, u, "edit_others_post", now) then true
    else if u == post.authorId && Perm(s, u, "edit_own_post", now) then WithinWindow(post, now)
    else HasPermissionTo(s, u, ByName("edit_others_post"), PostContext(post), now)
  }

  /** Where the written policy returns, the corrected one returns the same. */
  lemma UpdateRefinesAsWritten(s: Store, u: int, post: Post, now: int)
    ensures UpdateAsWritten(s, u, post, now).Ok? ==> Update(s, u, post, now) == UpdateAsWritten(s, u, post, now).value
    ensures UpdateAsWritten(s, u, post, now).Err? <==> !Perm(s, u, "edit_others_post", now) && !(u == post.authorId && Perm(s, u, "edit_own_post", now))
  {
  }

  /** A collaborator holding a live `edit_others_post` grant scoped to this
      post reaches the last step: the written policy throws, the corrected one
      allows the edit. */
  lemma CollaboratorGrantOnUpdate(s: Store, u: int, post: Post, now: int, i: int)
    requires 0 <= i < |s.temporaryPermissions|
    requires s.temporaryPermissions[i].userId == u && s.temporaryPermissions[i].permission == "edit_others_post"
    requires s.temporaryPermissions[i].conditions == PostContext(post)
    requires IsActive(s.temporaryPermissions[i], now)
    requires !Perm(s, u, "edit_others_post", now) && u != post.authorId
    ensures UpdateAsWritten(s, u, post, now) == Err(TypeError)
    ensures Update(s, u, post, now)
  {
    var t := s.temporaryPermissions[i];
    LooseEqSymmetric(Int(post.id), Int(post.id));
    assert Holds(t.conditions, PostContext(post), "post_id");
    assert Matches(t.conditions, PostContext(post));
    assert Grants(t, u, "edit_others_post", PostContext(post), now);
  }

  /** An author holding only `edit_own_post` may edit a draft at any time and
      a published post only during its first 24 hours. */
  lemma AuthorEditWindow(s: Store, u: int, post: Post, now: int)
    requires u == post.authorId && Perm(s, u, "edit_own_post", now) && !Perm(s, u, "edit_others_post", now)
    ensures post.publishedAt.None? ==> Update(s, u, post, now)
    ensures post.publishedAt.Some? ==> (Update(s, u, post, now) <==> now - post.publishedAt.value < 86400)
  {
  }

  /** `delete`: `delete_others_post` anywhere, the author with
      `delete_own_post` within the window; nobody else. */
  predicate Delete(s: Store, u: int, post: Post, now: int) {
    if Perm(s, u, "delete_others_post", now) then true
    else if u == post.authorId && Perm(s, u, "delete_own_post", now) then WithinWindow(post, now)
    else false
  }

  /** Deleting someone else's post needs `delete_others_post`. */
  lemma DeleteOthersNeedsPermission(s: Store, u: int, post: Post, now: int)
    requires u != post.authorId
    ensures Delete(s, u, post, now) <==> Perm(s, u, "delete_others_post", now)
  {
  }

  /** `restore`. */
  predicate Restore(s: Store, u: int, post: Post, now: int) {
    Perm(s, u, "delete_others_post", now)
  }

  /** `forceDelete`: the user holds `super-admin` or `admin`. */
  predicate ForceDelete(s: Store, u: int, post: Post) {
    HasRole(s, u, Array([ByName("super-admin"), ByName("admin")]))
  }

  /** Force-deleting is for exactly the users `is_admin` describes. */
  lemma ForceDeleteIsAdmin(s: Store, u: int, post: Post)
    ensures ForceDelete(s, u, post) <==> IsAdmin(s, u)
  {
    IsAdminMeaning(s, u);
    assert StringItems([ByName("super-admin"), ByName("admin")]) == ["super-admin", "admin"];
  }

  /** `publish`: `publish_post` is required; then the author may, and so may
      anyone else holding `edit_others_post`. */
  predicate Publish(s: Store, u: int, post: Post, now: int) {
    if !Perm(s, u, "publish_post", now) then false
    else if u != post.authorId && Perm(s, u, "edit_others_post", now) then true
    else if u == post.authorId then true
    else false
  }

  lemma PublishMeaning(s: Store, u: int, post: Post, now: int)
    ensures Publish(s, u, post, now) <==>
            Perm(s, u, "publish_post", now) && (u == post.authorId || Perm(s, u, "edit_others_post", now))
  {
  }

  /** `manageCategories`. */
  predicate ManageCategories(s: Store, u: int, now: int) {
    Perm(s, u, "manage_categories", now)
  }

  /** `manageTags`. */
  predicate ManageTags(s: Store, u: int, now: int) {
    Perm(s, u, "manage_tags", now)
  }

  /** Holding `edit_others_post` lets a user view and update every post. */
  lemma EditOthersSeesAndEditsAll(s: Store, u: int, post: Post, now: int)
    requires Perm(s, u, "edit_others_post", now)
    ensures View(s, u, post, now) && Update(s, u, post, now)
  {
  }

  /** The public sees every published post, and only those. */
  lemma ViewOfStrangers(s: Store, u: int, post: Post, now: int)
    requires u != post.authorId && !Perm(s, u, "edit_others_post", now)
    ensures View(s, u, post, now) <==> post.publishedAt.Some?
  {
  }
}
