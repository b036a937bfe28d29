/** The draft API: the user's latest draft, saving a draft (find or create,
    then merge the sent fields) and deleting one. */
module DraftController {
  import opened Common
  import opened Php
  import opened Content

  /** Which of a user's drafts a query looks at: all of them, or those
      attached to one post (or to none). */
  datatype Scope = AnyPost | ForPost(postId: Option<int>)

  predicate InScope(d: Draft, user: int, scope: Scope) {
    d.userId == user && (scope.ForPost? ==> d.postId == scope.postId)
  }

  /** `orderBy('updated_at', 'desc')->first()`: the index of a draft in scope
      updated no earlier than any other in scope. */
  function Newest(drafts: seq<Draft>, user: int, scope: Scope): (r: Option<nat>)
    ensures r.Some? ==> r.value < |drafts| && InScope(drafts[r.value], user, scope)
    ensures r.Some? ==> forall j :: 0 <= j < |drafts| && InScope(drafts[j], user, scope) ==>
                                    drafts[j].updatedAt <= drafts[r.value].updatedAt
    ensures r.None? <==> forall j :: 0 <= j < |drafts| ==> !InScope(drafts[j], user, scope)
  {
    if |drafts| == 0 then None
    else
      var n := |drafts| - 1;
      var rest := Newest(drafts[..n], user, scope);
      if !InScope(drafts[n], user, scope) then rest
      else if rest.Some? && drafts[rest.value].updatedAt >= drafts[n].updatedAt then rest
      else Some(n)
  }

  /** `->first()` without an order: the first draft in scope. */
  function First(drafts: seq<Draft>, user: int, scope: Scope): (r: Option<nat>)
    ensures r.Some? ==> r.value < |drafts| && InScope(drafts[r.value], user, scope)
    ensures r.Some? ==> forall j :: 0 <= j < r.value ==> !InScope(drafts[j], user, scope)
    ensures r.None? <==> forall j :: 0 <= j < |drafts| ==> !InScope(drafts[j], user, scope)
  {
    if |drafts| == 0 then None
    else if InScope(drafts[0], user, scope) then Some(0)
    else match First(drafts[1..], user, scope)
      case None => None
      case Some(i) => Some(i + 1)
  }

  /** `getLatest`: the user's most recently updated draft, if any. */
  function GetLatest(drafts: seq<Draft>, user: int): (r: Option<Draft>)
    ensures r.Some? ==> r.value in drafts && r.value.userId == user
    ensures r.Some? ==> forall d :: d in drafts && d.userId == user ==> d.updatedAt <= r.value.updatedAt
    ensures r.None? <==> forall d :: d in drafts ==> d.userId != user
  {
    match Newest(drafts, user, AnyPost)
    case None => None
    case Some(i) => Some(drafts[i])
  }

  datatype DraftError = Forbidden | NotFound | SaveFailed

  /** A post id the request treats as present (a non-zero id). */
  predicate Sent(postId: Option<int>) {
    postId.Some? && postId.value != 0
  }

  /** The draft `store` works on: the first of the user's drafts of a post
      the user wrote, or the newest of their drafts of new posts; `Ok(None)`
      means a new draft is made. */
  function Target(posts: seq<Post>, drafts: seq<Draft>, user: int, postId: Option<int>): (r: Result<Option<nat>, DraftError>)
    ensures r.Err? ==> r.error == Forbidden
    ensures r.Err? <==> Sent(postId) && (LiveIndex(posts, postId.value).None? || posts[LiveIndex(posts, postId.value).value].authorId != user)
    ensures r.Ok? && r.value.Some? ==> r.value.value < |drafts| && InScope(drafts[r.value.value], user, ForPost(if Sent(postId) then postId else None))
    ensures r == Ok(None) <==> r.Ok? && forall j :: 0 <= j < |drafts| ==> !InScope(drafts[j], user, ForPost(if Sent(postId) then postId else None))
  {
    if Sent(postId) then
      match LiveIndex(posts, postId.value)
      case None => Err(Forbidden)
      case Some(i) =>
        if posts[i].authorId != user then Err(Forbidden) else Ok(First(drafts, user, ForPost(postId)))
    else Ok(Newest(drafts, user, ForPost(None)))
  }

  /** `$data[$key] ?? $draft->$key` for every field: a sent (non-null) value
      replaces the stored one. */
  function Merge(stored: DraftFields, sent: DraftFields): DraftFields {
    DraftFields(
      if sent.title.Some? then sent.title else stored.title,
      if sent.content.Some? then sent.content else stored.content,
      if sent.excerpt.Some? then sent.excerpt else stored.excerpt,
      if sent.slug.Some? then sent.slug else stored.slug,
      if sent.categoryId.Some? then sent.categoryId else stored.categoryId,
      if sent.tags.Some? then sent.tags else stored.tags,
      if sent.status.Some? then sent.status else stored.status,
      if sent.featuredImage.Some? then sent.featuredImage else stored.featuredImage,
      if sent.settings.Some? then sent.settings else stored.settings)
  }

  /** A request that sends nothing leaves the draft as it was; sending the
      same fields twice is the same as sending them once; a field sent twice
      keeps the later value. */
  lemma MergeLaws(stored: DraftFields, a: DraftFields, b: DraftFields)
    ensures Merge(stored, Blank()) == stored
    ensures Merge(Merge(stored, a), a) == Merge(stored, a)
    ensures b.title.Some? ==> Merge(Merge(stored, a), b).title == b.title
    ensures b.status.None? ==> Merge(Merge(stored, a), b).status == Merge(stored, a).status
  {
  }

  /** A draft with every column null. */
  function Blank(): DraftFields {
    DraftFields(None, None, None, None, None, None, None, None, None)
  }

  /** The fields saved as written: on a new draft the status attribute is
      null unless sent, and the NOT NULL `status` column rejects the insert. */
  function SavedFieldsAsWritten(existing: Option<DraftFields>, sent: DraftFields): (r: Result<DraftFields, DraftError>)
    ensures r.Ok? ==> r.value.status.Some?
  {
    var f := Merge(existing.GetOr(Blank()), sent);
    if f.status.None? then Err(SaveFailed) else Ok(f)
  }

  /** The fields saved as intended: a missing status takes the column default. */
  function SavedFields(existing: Option<DraftFields>, sent: DraftFields): (f: DraftFields)
    ensures f.status.Some?
    ensures sent.status.Some? ==> f.status == sent.status
  {
    var m := Merge(existing.GetOr(Blank()), sent);
    m.(status := Some(m.status.GetOr("draft")))
  }

  /** Autosaving a new draft with no status fails as written; as intended it
      is saved as a draft; where the written code saves, both agree. */
  lemma NewDraftStatus(existing: Option<DraftFields>, sent: DraftFields)
    ensures existing.None? && sent.status.None? ==>
            SavedFieldsAsWritten(existing, sent) == Err(SaveFailed) && SavedFields(existing, sent).status == Some("draft")
    ensures SavedFieldsAsWritten(existing, sent).Ok? ==> SavedFields(existing, sent) == SavedFieldsAsWritten(existing, sent).value
  {
  }

  /** The draft `store` creates when there is none to update. */
  function NewDraft(id: int, user: int, postId: Option<int>, sent: DraftFields, now: int): Draft {
    Draft(id, user, if Sent(postId) then postId else None, SavedFields(None, sent), now)
  }

  /** After a save creates a draft, the next save of the same user and post
      finds that draft, so repeated autosaves keep updating one draft. */
  lemma SavedDraftIsFoundAgain(posts: seq<Post>, drafts: seq<Draft>, user: int, postId: Option<int>, id: int, sent: DraftFields, now: int)
    requires Target(posts, drafts, user, postId) == Ok(None)
    ensures Target(posts, drafts + [NewDraft(id, user, postId, sent, now)], user, postId) == Ok(Some(|drafts|))
  {
    var ds := drafts + [NewDraft(id, user, postId, sent, now)];
    var r := Target(posts, ds, user, postId);
    assert InScope(ds[|drafts|], user, ForPost(if Sent(postId) then postId else None));
    assert r.Ok? && r.value.Some?;
    assert r.value.value == |drafts| by {
      assert forall j :: 0 <= j < |drafts| ==> ds[j] == drafts[j];
    }
  }

  /** An existing draft after `save()`: the merged fields, and a new
      `updated_at` only when some attribute changed (a clean model is not
      written, so its timestamp stays). */
  function Resaved(draft: Draft, sent: DraftFields, now: int): (d: Draft)
    ensures d.id == draft.id && d.userId == draft.userId && d.postId == draft.postId
    ensures d.fields == SavedFields(Some(draft.fields), sent)
    ensures d.updatedAt == now <==> d.fields != draft.fields || draft.updatedAt == now
  {
    var f := SavedFields(Some(draft.fields), sent);
    draft.(fields := f, updatedAt := if f == draft.fields then draft.updatedAt else now)
  }

  /** Sending nothing to an existing draft with a status leaves it exactly as
      it was, timestamp included. */
  lemma EmptyResaveIsClean(draft: Draft, now: int)
    requires draft.fields.status.Some?
    ensures Resaved(draft, Blank(), now) == draft
  {
    assert Merge(draft.fields, Blank()) == draft.fields;
  }

  /** `store`: check the post, find or create the draft, merge the sent fields. */
  method Store(db: ContentDb, user: int, postId: Option<int>, sent: DraftFields, now: int) returns (r: Result<Draft, DraftError>)
    modifies db`drafts, db`nextDraftId
    ensures var t := Target(old(db.posts), old(db.drafts), user, postId);
      match t
      case Err(e) => r == Err(e) && db.drafts == old(db.drafts) && db.nextDraftId == old(db.nextDraftId)
      case Ok(None) =>
        r == Ok(NewDraft(old(db.nextDraftId), user, postId, sent, now)) &&
        db.drafts == old(db.drafts) + [r.value] && db.nextDraftId == old(db.nextDraftId) + 1
      case Ok(Some(i)) =>
        r == Ok(Resaved(old(db.drafts)[i], sent, now)) &&
        db.drafts == old(db.drafts)[i := r.value] && db.nextDraftId == old(db.nextDraftId)
  {
    var t := Target(db.posts, db.drafts, user, postId);
    match t {
      case Err(e) =>
        r := Err(e);
      case Ok(None) =>
        var d := NewDraft(db.nextDraftId, user, postId, sent, now);
        db.drafts := db.drafts + [d];
        db.nextDraftId := db.nextDraftId + 1;
        r := Ok(d);
      case Ok(Some(i)) =>
        var d := Resaved(db.drafts[i], sent, now);
        db.drafts := db.drafts[i := d];
        r := Ok(d);
    }
  }

  /** The index of the draft with the given id (`Draft::find`). */
  function FindDraft(drafts: seq<Draft>, id: int): (r: Option<nat>)
    ensures r.Some? ==> r.value < |drafts| && drafts[r.value].id == id
    ensures r.None? <==> forall j :: 0 <= j < |drafts| ==> drafts[j].id != id
  {
    if |drafts| == 0 then None
    else if drafts[0].id == id then Some(0)
    else match FindDraft(drafts[1..], id)
      case None => None
      case Some(i) => Some(i + 1)
  }

  /** `destroy`: 404 for an unknown id, 403 for another user's draft. */
  function DestroyTarget(drafts: seq<Draft>, user: int, id: int): (r: Result<nat, DraftError>)
    ensures r.Ok? ==> r.value < |drafts| && drafts[r.value].id == id && drafts[r.value].userId == user
    ensures r == Err(NotFound) <==> forall j :: 0 <= j < |drafts| ==> drafts[j].id != id
    ensures r.Err? ==> r.error != SaveFailed
  {
    match FindDraft(drafts, id)
    case None => Err(NotFound)
    case Some(i) => if drafts[i].userId != user then Err(Forbidden) else Ok(i)
  }

  /** A user never deletes another user's draft. */
  lemma DestroyOnlyOwnDrafts(drafts: seq<Draft>, user: int, id: int)
    requires forall j :: 0 <= j < |drafts| && drafts[j].id == id ==> drafts[j].userId != user
    ensures DestroyTarget(drafts, user, id).Err?
  {
  }

  method Destroy(db: ContentDb, user: int, id: int) returns (r: Result<bool, DraftError>)
    modifies db`drafts
    ensures var t := DestroyTarget(old(db.drafts), user, id);
      if t.Err? then r == Err(t.error) && db.drafts == old(db.drafts)
      else r == Ok(true) && db.drafts == old(db.drafts)[..t.value] + old(db.drafts)[t.value + 1..]
  {
    var t := DestroyTarget(db.drafts, user, id);
    if t.Err? {
      return Err(t.error);
    }
    db.drafts := db.drafts[..t.value] + db.drafts[t.value + 1..];
    r := Ok(true);
  }
}
