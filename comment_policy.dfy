/** Who may delete a comment. */
module CommentPolicy {
  import opened AuthStore
  import opened Users

  datatype Comment = Comment(id: int, userId: int)

  /** `delete`: the comment's author, or a super-admin. */
  predicate Delete(s: Store, u: int, c: Comment) {
    u == c.userId || HasRole(s, u, Single(ByName("super-admin")))
  }

  /** The comment's author may delete it, and so may a holder of
      `super-admin`; nobody else may, whatever else they hold (`admin`
      included). */
  lemma DeleteMeaning(s: Store, u: int, c: Comment)
    ensures Delete(s, u, c) <==> u == c.userId || "super-admin" in RoleNames(s, u)
  {
    assert '|' !in "super-admin";
  }
}
