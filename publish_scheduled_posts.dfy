/** The `posts:publish-scheduled` command: publish every live post whose
    scheduled time has come and which is not yet published. */
module PublishScheduledPosts {
  import opened Common
  import opened Php
  import opened Content
  import AuthorPostController

  /** The command's query: live, scheduled no later than now, unpublished. */
  predicate Due(p: Post, now: int) {
    !p.deleted && p.scheduledPublishAt.Some? && p.scheduledPublishAt.value <= now && p.publishedAt.None?
  }

  /** The post after `update(['published_at' => now(), 'scheduled_publish_at' => null])`
      as written: `scheduled_publish_at` is not a fillable attribute of the
      post model, so mass assignment drops it and the schedule stays. The
      model's `saving` hook settles the excerpt. */
  function PublishedAsWritten(p: Post, now: int): (q: Post)
    ensures q.publishedAt == Some(now) && q.scheduledPublishAt == p.scheduledPublishAt
  {
    p.(publishedAt := Some(now), excerpt := Some(SavedExcerpt(p.excerpt, p.content)))
  }

  /** The post after the update as intended: published and no longer scheduled. */
  function Published(p: Post, now: int): (q: Post)
    ensures q.publishedAt == Some(now) && q.scheduledPublishAt.None?
    ensures q.id == p.id && q.slug == p.slug && q.deleted == p.deleted && q.title == p.title && q.content == p.content
  {
    PublishedAsWritten(p, now).(scheduledPublishAt := None)
  }

  /** An author who moves a published post back to draft: as written, the
      stale schedule makes the next run publish it again; as intended it
      stays a draft. */
  lemma UnpublishedPostStaysDueAsWritten(p: Post, input: AuthorPostController.UpdateInput, t1: int, t2: int, t3: int)
    requires Due(p, t1) && input.status == "draft" && t3 >= t1
    requires AuthorPostController.Updated(PublishedAsWritten(p, t1), input, t2).Ok?
    ensures Due(AuthorPostController.Updated(PublishedAsWritten(p, t1), input, t2).value, t3)
    ensures AuthorPostController.Updated(Published(p, t1), input, t2).Ok?
    ensures !Due(AuthorPostController.Updated(Published(p, t1), input, t2).value, t3)
  {
  }

  /** The table after one run. */
  function PublishAll(posts: seq<Post>, now: int): (r: seq<Post>)
    ensures |r| == |posts|
    ensures forall i :: 0 <= i < |posts| ==> r[i] == if Due(posts[i], now) then Published(posts[i], now) else posts[i]
  {
    if |posts| == 0 then []
    else
      var p := posts[|posts| - 1];
      PublishAll(posts[..|posts| - 1], now) + [if Due(p, now) then Published(p, now) else p]
  }

  /** After a run nothing is due any more, so a second run at the same time
      changes nothing; every post that changed was due and is now published. */
  lemma {:induction false} RunIsIdempotent(posts: seq<Post>, now: int)
    ensures forall i :: 0 <= i < |posts| ==> !Due(PublishAll(posts, now)[i], now)
    ensures PublishAll(PublishAll(posts, now), now) == PublishAll(posts, now)
    ensures forall i :: 0 <= i < |posts| && PublishAll(posts, now)[i] != posts[i] ==>
              Due(posts[i], now) && Status(PublishAll(posts, now)[i]) == "published"
  {
    var once := PublishAll(posts, now);
    var twice := PublishAll(once, now);
    assert |twice| == |once|;
    forall i | 0 <= i < |once| ensures twice[i] == once[i] {
      assert !Due(once[i], now);
    }
  }

  /** `handle`: update each due post in turn. */
  method Handle(db: ContentDb, now: int)
    requires db.Valid()
    modifies db`posts
    ensures db.Valid()
    ensures db.posts == PublishAll(old(db.posts), now)
  {
    ghost var start := db.posts;
    var i := 0;
    while i < |db.posts|
      invariant |db.posts| == |start| && 0 <= i <= |start|
      invariant forall j :: 0 <= j < i ==> db.posts[j] == PublishAll(start, now)[j]
      invariant forall j :: i <= j < |start| ==> db.posts[j] == start[j]
    {
      if Due(db.posts[i], now) {
        db.posts := db.posts[i := Published(db.posts[i], now)];
      }
      i := i + 1;
    }
    SameKeysKeepValid(start, db.nextPostId, db.posts);
  }
}
