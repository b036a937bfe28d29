/** The author's own post pages: the filtered, sorted listing, and updating,
    deleting, creating and restoring a post. */
module AuthorPostController {
  import opened Common
  import opened Php
  import opened AuthStore
  import opened Users
  import opened Content
  import PostPolicy

  // ------------------------------------------------------------- listing

  /** The collation's case folding, on ASCII letters. */
  function Fold(c: char): char {
    if 'A' <= c <= 'Z' then (c as int + 32) as char else c
  }

  /** SQL `text LIKE pattern`: `%` matches any run of characters, `_` any
      one character, and every other character itself, ignoring ASCII case. */
  predicate Like(pattern: string, text: string)
    decreases |pattern| + |text|
  {
    if |pattern| == 0 then |text| == 0
    else if pattern[0] == '%' then Like(pattern[1..], text) || (|text| > 0 && Like(pattern, text[1..]))
    else |text| > 0 && (pattern[0] == '_' || Fold(pattern[0]) == Fold(text[0])) && Like(pattern[1..], text[1..])
  }

  /** A search term with no wildcard in it. */
  predicate Literal(w: string) {
    forall k :: 0 <= k < |w| ==> w[k] != '%' && w[k] != '_'
  }

  /** `w` occurs in `t` at `i`, up to ASCII case. */
  predicate FoldedAt(t: string, w: string, i: nat) {
    i + |w| <= |t| && forall k :: 0 <= k < |w| ==> Fold(t[i + k]) == Fold(w[k])
  }

  /** A lone `%` matches every text. */
  lemma {:induction false} PercentMatchesAll(t: string)
    ensures Like("%", t)
    decreases |t|
  {
    var p := "%";
    assert p[1..] == [];
    if |t| > 0 {
      PercentMatchesAll(t[1..]);
    }
  }

  /** A literal followed by `%` matches exactly the texts it starts. */
  lemma {:induction false} LiteralPrefix(w: string, t: string)
    requires Literal(w)
    ensures Like(w + "%", t) <==> FoldedAt(t, w, 0)
    decreases |w|
  {
    if |w| == 0 {
      assert w + "%" == "%";
      PercentMatchesAll(t);
    } else {
      assert (w + "%")[1..] == w[1..] + "%";
      if |t| > 0 {
        LiteralPrefix(w[1..], t[1..]);
        assert FoldedAt(t, w, 0) <==> Fold(t[0]) == Fold(w[0]) && FoldedAt(t[1..], w[1..], 0) by {
          if FoldedAt(t[1..], w[1..], 0) && Fold(t[0]) == Fold(w[0]) {
            forall k | 0 <= k < |w| ensures Fold(t[k]) == Fold(w[k]) {
              if k > 0 {
                assert t[1..][k - 1] == t[k] && w[1..][k - 1] == w[k];
              }
            }
          }
        }
      }
    }
  }

  /** A pattern after a leading `%` may start matching anywhere. */
  lemma {:induction false} LeadingPercent(q: string, t: string)
    ensures Like("%" + q, t) <==> exists i :: 0 <= i <= |t| && Like(q, t[i..])
    decreases |t|
  {
    var p := "%" + q;
    assert p[0] == '%' && p[1..] == q;
    assert t[0..] == t;
    if |t| > 0 {
      LeadingPercent(q, t[1..]);
      if exists i :: 0 <= i <= |t| && Like(q, t[i..]) {
        var i :| 0 <= i <= |t| && Like(q, t[i..]);
        if i > 0 {
          assert t[1..][i - 1..] == t[i..];
        }
      }
      if exists i :: 0 <= i <= |t| - 1 && Like(q, t[1..][i..]) {
        var i :| 0 <= i <= |t| - 1 && Like(q, t[1..][i..]);
        assert t[1..][i..] == t[i + 1..];
      }
    }
  }

  /** The listing's `'%' . $search . '%'` with a search free of wildcards
      matches exactly the titles that contain the search, ignoring ASCII
      case. */
  lemma SearchIsCaseFoldedSubstring(search: string, title: string)
    requires Literal(search)
    ensures Like("%" + search + "%", title) <==> exists i: nat :: i <= |title| && FoldedAt(title, search, i)
  {
    assert "%" + search + "%" == "%" + (search + "%");
    LeadingPercent(search + "%", title);
    forall i | 0 <= i <= |title|
      ensures Like(search + "%", title[i..]) <==> FoldedAt(title, search, i)
    {
      LiteralPrefix(search, title[i..]);
      if FoldedAt(title[i..], search, 0) {
        assert forall k :: 0 <= k < |search| ==> title[i..][k] == title[i + k];
      }
    }
  }

  /** `_` is a wildcard: searching for it lists every non-empty title. */
  lemma UnderscoreMatchesAnyTitle(title: string)
    ensures Like("%" + "_" + "%", title) <==> |title| > 0
  {
    var p := "%" + "_" + "%";
    LeadingPercent("_" + "%", title);
    if |title| > 0 {
      var q := "_" + "%";
      assert q[0] == '_' && q[1..] == "%";
      PercentMatchesAll(title[1..]);
      assert title[0..] == title;
    } else {
      assert title[0..] == title;
    }
  }

  /** Whether a post passes the `search` and `status` filters; an empty (or
      "0") filter is ignored, and an unknown status filters nothing. */
  predicate Listed(p: Post, search: Option<string>, status: Option<string>) {
    (search.None? || !Truthy(search.value) || Like("%" + search.value + "%", p.title)) &&
    (status.None? || !Truthy(status.value) ||
     ((status.value == "published" ==> p.publishedAt.Some?) && (status.value == "draft" ==> p.publishedAt.None?)))
  }

  /** `index`: the user's live posts passing the filters, in table order. */
  function Listing(posts: seq<Post>, user: int, search: Option<string>, status: Option<string>): (r: seq<Post>)
    ensures forall p :: p in r <==> p in posts && !p.deleted && p.authorId == user && Listed(p, search, status)
    ensures |r| <= |posts|
  {
    if |posts| == 0 then []
    else
      var p := posts[0];
      (if !p.deleted && p.authorId == user && Listed(p, search, status) then [p] else []) +
      Listing(posts[1..], user, search, status)
  }

  /** A status filter other than "published" and "draft" lists every post of the author. */
  lemma {:induction false} UnknownStatusFiltersNothing(posts: seq<Post>, user: int, status: string)
    requires status != "published" && status != "draft"
    ensures Listing(posts, user, None, Some(status)) == Listing(posts, user, None, None)
  {
    if |posts| > 0 {
      UnknownStatusFiltersNothing(posts[1..], user, status);
    }
  }

  /** The order the listing is sorted in. */
  datatype Order = OrderBy(field: string, ascending: bool) | OldestFirst | NewestFirst

  /** Reading `[$field, $direction]` from a sort value without a comma fails
      on the missing second element. */
  datatype IndexError = UndefinedArrayKey

  /** The columns the listing may be sorted by. */
  predicate SortableField(f: string) {
    f == "title" || f == "published_at" || f == "created_at" || f == "views"
  }

  /** `index`'s sort handling. */
  function SortPlan(sort: Option<string>): (r: Result<Order, IndexError>)
    ensures sort.None? || !Truthy(sort.value) ==> r == Ok(NewestFirst)
    ensures r.Ok? && r.value.OrderBy? ==> SortableField(r.value.field)
  {
    if sort.None? || !Truthy(sort.value) then Ok(NewestFirst)
    else
      var parts := Explode(',', sort.value);
      if |parts| < 2 then Err(UndefinedArrayKey)
      else
        var field := parts[0];
        var ascending := LooseEq(Str(parts[1]), Str("asc"));
        if SortableField(field) then Ok(OrderBy(field, ascending)) else Ok(OldestFirst)
  }

  /** A sort value with a comma gives `field,direction`: a known field is
      sorted ascending only for exactly "asc", any other field falls back to
      oldest first; a truthy value without a comma is an error. */
  lemma SortPlanMeaning(field: string, direction: string, rest: string)
    requires ',' !in field && ',' !in direction
    ensures SortPlan(Some(field + [','] + direction)) ==
            if SortableField(field) then Ok(OrderBy(field, direction == "asc")) else Ok(OldestFirst)
    ensures SortPlan(Some(field + [','] + direction + [','] + rest)) == SortPlan(Some(field + [','] + direction))
  {
    ExplodeAtFirst(',', field, direction);
    assert Explode(',', direction) == [direction];
    AscIsOnlyItself(direction);
    SortPlanIgnoresRest(field, direction, rest);
  }

  /** A third comma-separated part never changes the plan. */
  lemma SortPlanIgnoresRest(field: string, direction: string, rest: string)
    requires ',' !in field && ',' !in direction
    ensures SortPlan(Some(field + [','] + direction + [','] + rest)) == SortPlan(Some(field + [','] + direction))
  {
    var short, long := field + [','] + direction, field + [','] + direction + [','] + rest;
    ExplodeAtFirst(',', field, direction);
    LeadingParts(field, direction, rest);
    assert Explode(',', long)[0] == Explode(',', short)[0];
    assert Explode(',', long)[1] == Explode(',', short)[1];
  }

  /** The first two parts of `field,direction,rest` are `field` and `direction`. */
  lemma LeadingParts(field: string, direction: string, rest: string)
    requires ',' !in field && ',' !in direction
    ensures var parts := Explode(',', field + [','] + direction + [','] + rest);
      |parts| >= 2 && parts[0] == field && parts[1] == direction
  {
    assert field + [','] + direction + [','] + rest == field + [','] + (direction + [','] + rest);
    ExplodeAtFirst(',', field, direction + [','] + rest);
    ExplodeAtFirst(',', direction, rest);
  }

  lemma AscIsOnlyItself(d: string)
    ensures LooseEq(Str(d), Str("asc")) <==> d == "asc"
  {
    var asc := "asc";
    PlainNumeric(asc);
    assert !Decimal.IsDigit(asc[0]);
  }

  /** A truthy sort value without a comma cannot be read. */
  lemma SortWithoutCommaFails(sort: string)
    requires Truthy(sort) && ',' !in sort
    ensures SortPlan(Some(sort)) == Err(UndefinedArrayKey)
  {
  }

  // ------------------------------------------------------------ actions

  /** `$this->authorize(...)`: the super-admin gate runs first, then the policy. */
  predicate GateAllows(s: Store, u: int, policy: bool) {
    HasRole(s, u, Single(ByName("super-admin"))) || policy
  }

  /** `UndefinedKey`: reading a validated key the request did not send
      raises PHP's "undefined array key" warning, which Laravel turns into an
      exception. */
  datatype AuthorError = Forbidden | NotFound | UndefinedMethod | UndefinedKey

  /** A nullable request field: not sent, sent empty (null after Laravel's
      empty-string conversion), or sent with a value. `validate` returns only
      the keys that were sent. */
  datatype Field<T> = Absent | Null | Given(value: T)

  /** The validated request of `update`. `featuredImage` is the
      `featured_image` file field: `Given(url)` is an uploaded file stored
      under `url`, `Null` the key sent without a file. */
  datatype UpdateInput = UpdateInput(
    title: string,
    content: string,
    excerpt: Field<string>,
    categoryId: Field<int>,
    tags: Option<seq<int>>,
    featuredImage: Field<string>,
    imageUrl: Option<string>,
    status: string)

  /** The attribute a sent field leaves: the old value when not sent. */
  function Assigned<T>(stored: Option<T>, sent: Field<T>): (r: Option<T>)
    ensures sent.Absent? ==> r == stored
    ensures sent.Null? ==> r.None?
    ensures sent.Given? ==> r == Some(sent.value)
  {
    match sent
    case Absent => stored
    case Null => None
    case Given(v) => Some(v)
  }

  /** `$post->excerpt !== $validated['excerpt']` is false: both null, or the
      same string. */
  predicate SameExcerpt(stored: Option<string>, sent: Field<string>) {
    (sent.Null? && stored.None?) || (sent.Given? && stored == Some(sent.value))
  }

  /** The `$hasContentChanges` chain reads `$validated['excerpt']` when the
      title and content are unchanged, and `$validated['category_id']` when
      the excerpt is unchanged too; `||` stops at the first difference. */
  predicate ReadsMissingKey(post: Post, input: UpdateInput) {
    post.title == input.title && post.content == input.content &&
    (input.excerpt.Absent? || (SameExcerpt(post.excerpt, input.excerpt) && input.categoryId.Absent?))
  }

  /** The image `update` stores: an upload, else a truthy URL, else whatever
      the `featured_image` key holds — so a key sent empty clears the image
      and a key not sent keeps it. */
  function Image(stored: Option<string>, input: UpdateInput): (r: Option<string>)
    ensures input.featuredImage.Given? ==> r == Some(input.featuredImage.value)
    ensures !input.featuredImage.Given? && input.imageUrl.Some? && Truthy(input.imageUrl.value) ==> r == input.imageUrl
    ensures !input.featuredImage.Given? && !(input.imageUrl.Some? && Truthy(input.imageUrl.value)) ==>
      r == (if input.featuredImage.Null? then None else stored)
  {
    if input.featuredImage.Given? then Some(input.featuredImage.value)
    else if input.imageUrl.Some? && Truthy(input.imageUrl.value) then input.imageUrl
    else Assigned(stored, input.featuredImage)
  }

  /** The post `update` saves, or the error that stops it before saving. */
  function Updated(post: Post, input: UpdateInput, now: int): (r: Result<Post, AuthorError>)
    ensures r.Err? <==> ReadsMissingKey(post, input)
    ensures r.Err? ==> r.error == UndefinedKey
    ensures r.Ok? ==> var p := r.value;
      p.id == post.id && p.slug == post.slug && p.deleted == post.deleted && p.authorId == post.authorId &&
      p.title == input.title && p.content == input.content &&
      p.categoryId == Assigned(post.categoryId, input.categoryId) &&
      p.featuredImage == Image(post.featuredImage, input) &&
      p.excerpt == Some(SavedExcerpt(Assigned(post.excerpt, input.excerpt), input.content)) &&
      (input.status == "draft" ==> p.publishedAt.None?) &&
      (input.status == "published" ==> p.publishedAt.Some? && (post.publishedAt.Some? ==> p.publishedAt == post.publishedAt)) &&
      (input.status != "draft" && input.status != "published" ==> p.publishedAt == post.publishedAt)
  {
    if ReadsMissingKey(post, input) then Err(UndefinedKey)
    else
      Ok(post.(title := input.title, content := input.content,
               excerpt := Some(SavedExcerpt(Assigned(post.excerpt, input.excerpt), input.content)),
               categoryId := Assigned(post.categoryId, input.categoryId),
               storedStatus := Some(input.status),
               featuredImage := Image(post.featuredImage, input),
               publishedAt := if input.status == "published" && post.publishedAt.None? then Some(now)
                              else if input.status == "draft" then None
                              else post.publishedAt))
  }

  /** Re-sending a post unchanged without an excerpt field fails; sending
      every nullable field never does. */
  lemma UpdateMissingKeys(post: Post, input: UpdateInput, now: int)
    ensures input.title == post.title && input.content == post.content && input.excerpt.Absent? ==>
      Updated(post, input, now) == Err(UndefinedKey)
    ensures !input.excerpt.Absent? && !input.categoryId.Absent? ==> Updated(post, input, now).Ok?
  {
  }

  /** An empty `featured_image` field with no URL removes the image; leaving
      the field out keeps it. */
  lemma EmptyImageFieldClears(post: Post, input: UpdateInput, now: int)
    requires Updated(post, input, now).Ok? && input.imageUrl.None?
    ensures input.featuredImage.Null? ==> Updated(post, input, now).value.featuredImage.None?
    ensures input.featuredImage.Absent? ==> Updated(post, input, now).value.featuredImage == post.featuredImage
  {
  }

  /** Saving a draft and then publishing it again gives it a new publication
      time; the 24-hour editing window of its author restarts. */
  lemma UnpublishRestartsWindow(post: Post, a: UpdateInput, b: UpdateInput, t1: int, t2: int)
    requires a.status == "draft" && b.status == "published"
    requires Updated(post, a, t1).Ok? && Updated(Updated(post, a, t1).value, b, t2).Ok?
    ensures Updated(Updated(post, a, t1).value, b, t2).value.publishedAt == Some(t2)
  {
  }

  /** `update`: the gate and the policy decide, then the post and its tags change. */
  method Update(db: ContentDb, s: Store, u: int, id: int, input: UpdateInput, now: int) returns (r: Result<Post, AuthorError>)
    requires db.Valid()
    modifies db`posts, db`postTags
    ensures db.Valid()
    ensures LiveIndex(old(db.posts), id).None? ==> r == Err(NotFound) && db.posts == old(db.posts) && db.postTags == old(db.postTags)
    ensures LiveIndex(old(db.posts), id).Some? ==>
      var i := LiveIndex(old(db.posts), id).value;
      var post := old(db.posts)[i];
      if !GateAllows(s, u, PostPolicy.Update(s, u, post, now)) then
        r == Err(Forbidden) && db.posts == old(db.posts) && db.postTags == old(db.postTags)
      else if Updated(post, input, now).Err? then
        r == Updated(post, input, now) && db.posts == old(db.posts) && db.postTags == old(db.postTags)
      else
        r == Updated(post, input, now) && db.posts == old(db.posts)[i := r.value] &&
        db.postTags == (if input.tags.Some? then Sync(old(db.postTags), id, input.tags.value) else old(db.postTags))
  {
    var found := LiveIndex(db.posts, id);
    if found.None? {
      return Err(NotFound);
    }
    var i := found.value;
    var post := db.posts[i];
    if !GateAllows(s, u, PostPolicy.Update(s, u, post, now)) {
      return Err(Forbidden);
    }
    var updated := Updated(post, input, now);
    if updated.Err? {
      return updated;
    }
    var p := updated.value;
    OwnSlugIsNotAnothers(db.posts, db.nextPostId, i);
    ReplaceKeepsValid(db.posts, db.nextPostId, i, p);
    db.posts := db.posts[i := p];
    if input.tags.Some? {
      db.postTags := Sync(db.postTags, id, input.tags.value);
    }
    r := updated;
  }

  /** `destroy`: a soft delete, when the gate and the policy allow it. */
  method Destroy(db: ContentDb, s: Store, u: int, id: int, now: int) returns (r: Result<bool, AuthorError>)
    requires db.Valid()
    modifies db`posts
    ensures db.Valid()
    ensures LiveIndex(old(db.posts), id).None? ==> r == Err(NotFound) && db.posts == old(db.posts)
    ensures LiveIndex(old(db.posts), id).Some? ==>
      var i := LiveIndex(old(db.posts), id).value;
      var post := old(db.posts)[i];
      if !GateAllows(s, u, PostPolicy.Delete(s, u, post, now)) then r == Err(Forbidden) && db.posts == old(db.posts)
      else r == Ok(true) && db.posts == old(db.posts)[i := post.(deleted := true)]
  {
    var found := LiveIndex(db.posts, id);
    if found.None? {
      return Err(NotFound);
    }
    var i := found.value;
    var post := db.posts[i];
    if !GateAllows(s, u, PostPolicy.Delete(s, u, post, now)) {
      return Err(Forbidden);
    }
    OwnSlugIsNotAnothers(db.posts, db.nextPostId, i);
    ReplaceKeepsValid(db.posts, db.nextPostId, i, post.(deleted := true));
    db.posts := db.posts[i := post.(deleted := true)];
    r := Ok(true);
  }

  /** After a soft delete no query finds the post, and its slug is free again. */
  lemma DeletedPostIsGone(posts: seq<Post>, nextId: int, i: int)
    requires PostsValid(posts, nextId) && 0 <= i < |posts|
    ensures LiveIndex(posts[i := posts[i].(deleted := true)], posts[i].id).None?
    ensures posts[i].slug !in LiveSlugs(posts[i := posts[i].(deleted := true)]) || posts[i].deleted
  {
    var ps := posts[i := posts[i].(deleted := true)];
    forall j | 0 <= j < |ps| && ps[j].id == posts[i].id ensures ps[j].deleted {
    }
    if !posts[i].deleted {
      forall q | q in ps && !q.deleted ensures q.slug != posts[i].slug {
        var j :| 0 <= j < |ps| && ps[j] == q;
      }
    }
  }

  /** The validated request of `store`. */
  datatype StoreInput = StoreInput(
    title: string,
    content: string,
    excerpt: Option<string>,
    categoryId: Option<int>,
    tags: Option<seq<int>>,
    upload: Option<string>,
    status: string)

  /** The base slug of `store`: the slugified title, or else a slugified
      five-character random string. */
  function StoreBase(titleSlug: string, randomSlug: string): (b: string)
    requires |randomSlug| == 5
    ensures Truthy(b)
  {
    if Truthy(titleSlug) then titleSlug else randomSlug
  }

  /** The post `store` saves. */
  function Created(id: int, user: int, input: StoreInput, slug: string, now: int): (p: Post)
    ensures p.id == id && p.authorId == user && p.slug == slug && !p.deleted
    ensures p.publishedAt.Some? <==> input.status == "published"
  {
    Post(id, user, input.title, slug, input.content, Some(SavedExcerpt(input.excerpt, input.content)),
         input.upload, Some(input.status), if input.status == "published" then Some(now) else None,
         None, input.categoryId, None, None, 0, now, false)
  }

  /** `store`: any signed-in user may create a post; its slug is the first
      free numbered variant of the base. */
  method Store(db: ContentDb, user: int, input: StoreInput, titleSlug: string, randomSlug: string, now: int) returns (post: Post)
    requires db.Valid()
    requires |randomSlug| == 5
    modifies db`posts, db`nextPostId, db`postTags
    ensures db.Valid()
    ensures IsFirstFree(StoreBase(titleSlug, randomSlug), LiveSlugs(old(db.posts)), post.slug)
    ensures post.slug !in LiveSlugs(old(db.posts))
    ensures post == Created(old(db.nextPostId), user, input, post.slug, now)
    ensures db.posts == old(db.posts) + [post] && db.nextPostId == old(db.nextPostId) + 1
    ensures db.postTags == if input.tags.Some? then Sync(old(db.postTags), post.id, input.tags.value) else old(db.postTags)
  {
    var base := StoreBase(titleSlug, randomSlug);
    var taken := LiveSlugs(db.posts);
    var slug := FirstFreeSlug(base, taken);
    ghost var k: nat :| slug == Candidate(base, k) && slug !in taken && forall j: nat :: j < k ==> Candidate(base, j) in taken;
    CandidateTruthy(base, k);
    post := Created(db.nextPostId, user, input, slug, now);
    AppendKeepsValid(db.posts, db.nextPostId, post);
    db.posts := db.posts + [post];
    db.nextPostId := db.nextPostId + 1;
    if input.tags.Some? {
      db.postTags := Sync(db.postTags, post.id, input.tags.value);
    }
  }

  /** `restore`: after the gate and the revision check, the call to
      `restoreFromRevision`, which the post model does not define, fails. */
  function Restore(s: Store, u: int, post: Post, revision: Revision, now: int): (r: Result<bool, AuthorError>)
    ensures r.Err?
    ensures r == Err(Forbidden) <==> !GateAllows(s, u, PostPolicy.Update(s, u, post, now))
    ensures r == Err(NotFound) <==> GateAllows(s, u, PostPolicy.Update(s, u, post, now)) && revision.postId != post.id
  {
    if !GateAllows(s, u, PostPolicy.Update(s, u, post, now)) then Err(Forbidden)
    else if revision.postId != post.id then Err(NotFound)
    else Err(UndefinedMethod)
  }
}
