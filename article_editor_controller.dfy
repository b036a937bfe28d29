/** Saving a post from the article editor: the slug rules, the fields a new or
    edited post receives, tag syncing and the clean-up of the author's drafts. */
module ArticleEditorController {
  import opened Common
  import opened Php
  import AuthStore
  import opened Content

  /** The validated request of `store` and `update`. */
  datatype EditorInput = EditorInput(
    title: string,
    content: string,
    excerpt: Option<string>,
    slug: Option<string>,
    categoryId: int,
    tags: Option<seq<int>>,
    status: string,
    scheduledPublishAt: Option<int>,
    featuredImage: Option<string>,
    settings: Option<map<string, Scalar>>)

  /** The base `generateUniqueSlug` starts from: the slugified title, or
      `post-` and a timestamp when that is empty. `titleSlug` is what
      `Str::slug` makes of the title, `stamp` the `YmdHis` time. */
  function BaseSlug(titleSlug: string, stamp: string): (b: string)
    ensures Truthy(b)
    ensures Truthy(titleSlug) ==> b == titleSlug
  {
    if Truthy(titleSlug) then titleSlug else "post-" + stamp
  }

  /** How a save picks the slug. */
  datatype SlugPlan = Keep | UseGiven(slug: string) | Generate(base: string)

  /** `store`: an empty slug, or one a live post already has, is replaced by a
      generated one. */
  function StoreSlugPlan(given: Option<string>, base: string, taken: set<string>): (plan: SlugPlan)
    ensures plan.UseGiven? <==> given.Some? && Truthy(given.value) && given.value !in taken
    ensures plan.UseGiven? ==> plan.slug == given.value
    ensures !plan.UseGiven? ==> plan == Generate(base)
  {
    if given.None? || !Truthy(given.value) then Generate(base)
    else if given.value in taken then Generate(base)
    else UseGiven(given.value)
  }

  /** `update`: a new non-empty slug is used unless another live post has it,
      in which case one is generated; with no slug given, a slug is generated
      when `comparedTitle` differs from the new title. */
  function UpdateSlugPlan(given: Option<string>, current: string, comparedTitle: string, newTitle: string,
                          base: string, others: set<string>): SlugPlan
  {
    if given.Some? && Truthy(given.value) && given.value != current then
      (if given.value in others then Generate(base) else UseGiven(given.value))
    else if !(given.Some? && Truthy(given.value)) && comparedTitle != newTitle then Generate(base)
    else Keep
  }

  /** The plan as written: the title is compared after it has already been
      overwritten with the new one. */
  function UpdateSlugPlanAsWritten(given: Option<string>, post: Post, input: EditorInput, base: string, others: set<string>): SlugPlan {
    UpdateSlugPlan(given, post.slug, input.title, input.title, base, others)
  }

  /** The plan as intended: the stored title is compared with the new one. */
  function UpdateSlugPlanCorrected(given: Option<string>, post: Post, input: EditorInput, base: string, others: set<string>): SlugPlan {
    UpdateSlugPlan(given, post.slug, post.title, input.title, base, others)
  }

  /** As written, a new title with no slug never regenerates the slug. */
  lemma TitleChangeKeepsSlugAsWritten(post: Post, input: EditorInput, base: string, others: set<string>)
    requires input.slug.None? && post.title != input.title
    ensures UpdateSlugPlanAsWritten(input.slug, post, input, base, others) == Keep
  {
  }

  /** As intended, a new title with no slug regenerates it; the two differ on
      exactly these inputs. */
  lemma TitleChangeRegeneratesSlug(given: Option<string>, post: Post, input: EditorInput, base: string, others: set<string>)
    ensures !(given.Some? && Truthy(given.value)) ==>
            (UpdateSlugPlanCorrected(given, post, input, base, others) == Generate(base) <==> post.title != input.title)
    ensures UpdateSlugPlanCorrected(given, post, input, base, others) != UpdateSlugPlanAsWritten(given, post, input, base, others) <==>
            !(given.Some? && Truthy(given.value)) && post.title != input.title
  {
  }

  /** A given slug is used only when no other live post has it. */
  lemma UpdateNeverTakesAnotherPostsSlug(given: Option<string>, post: Post, input: EditorInput, base: string, others: set<string>)
    ensures UpdateSlugPlanCorrected(given, post, input, base, others).UseGiven? ==>
            UpdateSlugPlanCorrected(given, post, input, base, others).slug !in others
  {
  }

  /** `slug` is what the plan yields when `taken` holds the live slugs. */
  ghost predicate SlugChosen(plan: SlugPlan, current: string, taken: set<string>, slug: string) {
    match plan
    case Keep => slug == current
    case UseGiven(g) => slug == g
    case Generate(b) => IsFirstFree(b, taken, slug) && slug !in taken
  }

  /** Carry out a plan, running the suffix search when it says so. */
  method ChooseSlug(plan: SlugPlan, current: string, taken: set<string>) returns (slug: string)
    ensures SlugChosen(plan, current, taken, slug)
  {
    match plan {
      case Keep => slug := current;
      case UseGiven(g) => slug := g;
      case Generate(b) => slug := FirstFreeSlug(b, taken);
    }
  }

  /** A boolean setting: its value's truth when present and not null, else the default. */
  function Setting(settings: map<string, Scalar>, key: string, default: bool): (b: bool)
    ensures key !in settings ==> b == default
  {
    if key in settings && settings[key] != Null then ToBool(settings[key]) else default
  }

  /** When the publication time is set and the schedule recorded. */
  predicate Schedules(input: EditorInput) {
    input.status == "scheduled" && input.scheduledPublishAt.Some?
  }

  /** The post `store` saves, given its id and chosen slug. */
  function NewPost(id: int, user: int, input: EditorInput, slug: string, now: int): (p: Post)
    ensures p.id == id && p.authorId == user && p.slug == slug && !p.deleted
    ensures p.publishedAt.Some? <==> input.status == "published"
    ensures p.scheduledPublishAt.Some? <==> Schedules(input)
    ensures p.excerpt.Some?
    ensures input.excerpt.None? ==> var e := p.excerpt.value;
      |e| >= 3 && e[|e| - 3..] == "..." && e[..|e| - 3] <= StripTags(input.content)
  {
    Post(id, user, input.title, slug, input.content,
         Some(SavedExcerpt(Some(input.excerpt.GetOr(DerivedExcerpt(input.content))), input.content)),
         input.featuredImage, Some(input.status),
         if !Schedules(input) && input.status == "published" then Some(now) else None,
         if Schedules(input) then input.scheduledPublishAt else None,
         Some(input.categoryId),
         if input.settings.Some? then Some(Setting(input.settings.value, "allowComments", true)) else None,
         if input.settings.Some? then Some(Setting(input.settings.value, "isFeatured", false)) else None,
         0, now, false)
  }

  /** The post `update` saves, given the stored one and the chosen slug. */
  function EditedPost(post: Post, input: EditorInput, slug: string, now: int): (p: Post)
    ensures p.id == post.id && p.authorId == post.authorId && p.slug == slug && p.deleted == post.deleted
    ensures p.views == post.views && p.createdAt == post.createdAt
    ensures post.publishedAt.Some? ==> p.publishedAt == post.publishedAt
    ensures post.publishedAt.None? ==> (p.publishedAt.Some? <==> input.status == "published")
  {
    post.(title := input.title, content := input.content,
          excerpt := Some(SavedExcerpt(Some(input.excerpt.GetOr(DerivedExcerpt(input.content))), input.content)),
          slug := slug,
          categoryId := Some(input.categoryId),
          storedStatus := Some(input.status),
          featuredImage := if input.featuredImage.Some? then input.featuredImage else post.featuredImage,
          scheduledPublishAt := if Schedules(input) then input.scheduledPublishAt else post.scheduledPublishAt,
          publishedAt := if !Schedules(input) && input.status == "published" && post.publishedAt.None? then Some(now) else post.publishedAt,
          allowComments := if input.settings.Some? && "allowComments" in input.settings.value && input.settings.value["allowComments"] != Null
                           then Some(ToBool(input.settings.value["allowComments"])) else post.allowComments,
          featured := if input.settings.Some? && "isFeatured" in input.settings.value && input.settings.value["isFeatured"] != Null
                      then Some(ToBool(input.settings.value["isFeatured"])) else post.featured)
  }

  /** Re-saving a published post never moves its publication time. */
  lemma RepublishKeepsPublicationTime(post: Post, input: EditorInput, slug: string, now: int)
    requires post.publishedAt.Some?
    ensures EditedPost(post, input, slug, now).publishedAt == post.publishedAt
    ensures Status(EditedPost(post, input, slug, now)) == "published"
  {
  }

  /** The drafts left after deleting the user's drafts attached to `postId`. */
  function WithoutDrafts(drafts: seq<Draft>, user: int, postId: Option<int>): (r: seq<Draft>)
    ensures forall d :: d in r <==> d in drafts && !(d.userId == user && d.postId == postId)
  {
    if |drafts| == 0 then []
    else (if drafts[0].userId == user && drafts[0].postId == postId then [] else [drafts[0]]) +
         WithoutDrafts(drafts[1..], user, postId)
  }

  /** The tags a save leaves on a post. */
  function TagsAfter(postTags: set<(int, int)>, postId: int, tags: Option<seq<int>>, skipEmpty: bool): set<(int, int)> {
    if tags.Some? && !(skipEmpty && |tags.value| == 0) then AuthStore.Sync(postTags, postId, tags.value) else postTags
  }

  /** On `store` an empty tag list leaves the tags alone; on `update` it removes them all. */
  lemma EmptyTagList(postTags: set<(int, int)>, postId: int)
    ensures TagsAfter(postTags, postId, Some([]), true) == postTags
    ensures AuthStore.Related(TagsAfter(postTags, postId, Some([]), false), postId) == {}
  {
    AuthStore.SyncEffect(postTags, postId, [], postId);
  }

  /** `store`: save a new post with a slug no live post has, attach its tags
      and drop the author's drafts of new posts. */
  method Store(db: ContentDb, user: int, input: EditorInput, titleSlug: string, stamp: string, now: int) returns (post: Post)
    requires db.Valid()
    modifies db
    ensures db.Valid()
    ensures SlugChosen(StoreSlugPlan(input.slug, BaseSlug(titleSlug, stamp), LiveSlugs(old(db.posts))), "",
                       LiveSlugs(old(db.posts)), post.slug)
    ensures post.slug !in LiveSlugs(old(db.posts))
    ensures post == NewPost(old(db.nextPostId), user, input, post.slug, now)
    ensures db.posts == old(db.posts) + [post] && db.nextPostId == old(db.nextPostId) + 1
    ensures db.postTags == TagsAfter(old(db.postTags), post.id, input.tags, true)
    ensures db.drafts == WithoutDrafts(old(db.drafts), user, None) && db.nextDraftId == old(db.nextDraftId)
  {
    var taken := LiveSlugs(db.posts);
    var base := BaseSlug(titleSlug, stamp);
    var plan := StoreSlugPlan(input.slug, base, taken);
    var slug := ChooseSlug(plan, "", taken);
    if plan.Generate? {
      FirstFreeTruthy(base, taken, slug);
    }
    post := NewPost(db.nextPostId, user, input, slug, now);
    AppendKeepsValid(db.posts, db.nextPostId, post);
    db.posts := db.posts + [post];
    db.nextPostId := db.nextPostId + 1;
    db.postTags := TagsAfter(db.postTags, post.id, input.tags, true);
    db.drafts := WithoutDrafts(db.drafts, user, None);
  }

  datatype EditError = NotFound

  /** `update`: rewrite a live post, keep its slug unique among live posts,
      sync its tags when a list is sent and drop the user's drafts of it.
      Nothing here checks who the user is. */
  method Update(db: ContentDb, user: int, id: int, input: EditorInput, titleSlug: string, stamp: string, now: int)
    returns (r: Result<Post, EditError>)
    requires db.Valid()
    modifies db
    ensures db.Valid()
    ensures LiveIndex(old(db.posts), id).None? ==> r == Err(NotFound) && db.State() == old(db.State())
    ensures LiveIndex(old(db.posts), id).Some? ==>
      var i := LiveIndex(old(db.posts), id).value;
      r.Ok? && r.value == EditedPost(old(db.posts)[i], input, r.value.slug, now) &&
      db.posts == old(db.posts)[i := r.value] && db.nextPostId == old(db.nextPostId)
    ensures LiveIndex(old(db.posts), id).Some? ==>
      var post := old(db.posts)[LiveIndex(old(db.posts), id).value];
      r.Ok? &&
      SlugChosen(UpdateSlugPlanCorrected(input.slug, post, input, BaseSlug(titleSlug, stamp), OtherSlugs(old(db.posts), id)),
                 post.slug, LiveSlugs(old(db.posts)), r.value.slug) &&
      r.value.slug !in OtherSlugs(old(db.posts), id)
    ensures LiveIndex(old(db.posts), id).Some? ==>
      db.postTags == TagsAfter(old(db.postTags), id, input.tags, false) &&
      db.drafts == WithoutDrafts(old(db.drafts), user, Some(id)) && db.nextDraftId == old(db.nextDraftId)
  {
    var found := LiveIndex(db.posts, id);
    if found.None? {
      return Err(NotFound);
    }
    var i := found.value;
    var post := db.posts[i];
    var taken := LiveSlugs(db.posts);
    var others := OtherSlugs(db.posts, id);
    var base := BaseSlug(titleSlug, stamp);
    var plan := UpdateSlugPlanCorrected(input.slug, post, input, base, others);
    var slug := ChooseSlug(plan, post.slug, taken);
    assert others <= taken;
    if plan.Generate? {
      FirstFreeTruthy(base, taken, slug);
    } else if plan.Keep? {
      OwnSlugIsNotAnothers(db.posts, db.nextPostId, i);
    }
    var edited := EditedPost(post, input, slug, now);
    ReplaceKeepsValid(db.posts, db.nextPostId, i, edited);
    db.posts := db.posts[i := edited];
    db.postTags := TagsAfter(db.postTags, id, input.tags, false);
    db.drafts := WithoutDrafts(db.drafts, user, Some(id));
    r := Ok(edited);
  }
}
