/** The client-side state of the three-step article editor
    (`resources/js/stores/articleEditor.js`): a step counter kept in 1..3,
    the post fields, a tag list, settings and the unsaved-changes flag. */
module EditorStore {
  import opened Common
  import JsText

  /** A tag id as the page holds it: a number or a string, never equal to
      each other under `!==`. */
  datatype TagKey = Num(n: int) | Text(s: string)

  /** A tag object; `handle` stands for its identity, so two tags are the
      same object exactly when they are equal values. */
  datatype Tag = Tag(handle: nat, id: TagKey, name: string)

  /** The argument of `removeTag`: an id, or a tag object. */
  datatype TagRef = ByKey(key: TagKey) | ByTag(tag: Tag)

  /** The post fields `loadPost` reads; a missing or falsy field is `None`. */
  datatype LoadedPost = LoadedPost(
    id: Option<int>,
    title: Option<string>,
    content: Option<string>,
    excerpt: Option<string>,
    slug: Option<string>,
    categoryId: Option<int>,
    tags: Option<seq<Tag>>,
    status: Option<string>,
    scheduledPublishAt: Option<string>,
    featuredImage: Option<string>,
    settings: Option<map<string, bool>>)

  /** What `lastSaveStatus` shows: the custom message, "未保存", or the time of
      the last save (written out by the browser's locale). */
  datatype SaveStatus = Custom(message: string) | NotSaved | SavedAt(time: int)

  /** Every field of the store at one moment. */
  datatype EditorState = EditorState(
    step: int,
    title: string,
    content: string,
    excerpt: string,
    slug: string,
    customSlug: bool,
    categoryId: Option<int>,
    tags: seq<Tag>,
    status: string,
    scheduledTime: Option<string>,
    featuredImage: Option<string>,
    settings: map<string, bool>,
    editorSettings: map<string, bool>,
    lastSavedTime: Option<int>,
    hasUnsavedChanges: bool,
    customSaveStatus: string,
    postId: Option<int>)

  const DefaultSettings: map<string, bool> :=
    map["allowComments" := true, "isFeatured" := false, "notifySubscribers" := true]

  const DefaultEditorSettings: map<string, bool> :=
    map["isDarkMode" := false, "isAdvancedMode" := false, "autoSave" := true]

  /** The state the store starts in and `$reset` returns to. */
  const Initial: EditorState := EditorState(
    1, "", "", "", "", false, None, [], "draft", None, None,
    DefaultSettings, DefaultEditorSettings, None, false, "", None)

  /** A JavaScript truthy category id: present and not 0. */
  predicate CategoryChosen(c: Option<int>) {
    c.Some? && c.value != 0
  }

  /** No tag object appears twice. */
  predicate NoDuplicates(tags: seq<Tag>) {
    forall i, j :: 0 <= i < j < |tags| ==> tags[i] != tags[j]
  }

  /** `tags.filter(tag => tag.id !== key)`. */
  function WithoutKey(tags: seq<Tag>, key: TagKey): (r: seq<Tag>)
    ensures forall t :: t in r <==> t in tags && t.id != key
    ensures |r| <= |tags|
    ensures NoDuplicates(tags) ==> NoDuplicates(r)
  {
    if |tags| == 0 then []
    else if tags[0].id != key then [tags[0]] + WithoutKey(tags[1..], key)
    else WithoutKey(tags[1..], key)
  }

  /** `tags.indexOf(tag)`: the first position holding the tag. */
  function FirstIndex(tags: seq<Tag>, tag: Tag): (r: Option<nat>)
    ensures r.Some? ==> r.value < |tags| && tags[r.value] == tag && tag !in tags[..r.value]
    ensures r.None? <==> tag !in tags
  {
    if |tags| == 0 then None
    else if tags[0] == tag then Some(0)
    else match FirstIndex(tags[1..], tag)
      case None => None
      case Some(i) =>
        assert tags[..i + 1] == [tags[0]] + tags[1..][..i];
        Some(i + 1)
  }

  /** Dropping one position keeps a duplicate-free list duplicate-free and
      removes the tag held there. */
  lemma RemoveAtKeepsDistinct(tags: seq<Tag>, i: nat)
    requires i < |tags| && NoDuplicates(tags)
    ensures NoDuplicates(tags[..i] + tags[i + 1..])
    ensures tags[i] !in tags[..i] + tags[i + 1..]
  {
    var r := tags[..i] + tags[i + 1..];
    forall a, b | 0 <= a < b < |r| ensures r[a] != r[b] {
      var a' := if a < i then a else a + 1;
      var b' := if b < i then b else b + 1;
      assert r[a] == tags[a'] && r[b] == tags[b'];
    }
    forall k | 0 <= k < |r| ensures r[k] != tags[i] {
      var k' := if k < i then k else k + 1;
      assert r[k] == tags[k'];
    }
  }

  /** The content refs of the store: title, body, excerpt and slug. */
  datatype Writing = Writing(title: string, content: string, excerpt: string, slug: string, customSlug: bool)

  /** The category and tag refs. */
  datatype Taxonomy = Taxonomy(categoryId: Option<int>, tags: seq<Tag>)

  /** The publishing refs. */
  datatype Publishing = Publishing(status: string, scheduledTime: Option<string>, featuredImage: Option<string>)

  /** The save-state refs. */
  datatype Saving = Saving(lastSavedTime: Option<int>, hasUnsavedChanges: bool, customSaveStatus: string)

  /** The editor store. Its refs are kept in the groups the store declares
      them in; every method keeps `step` within 1..3. */
  class ArticleEditor {
    var step: int
    var writing: Writing
    var taxonomy: Taxonomy
    var publishing: Publishing
    var settings: map<string, bool>
    var editorSettings: map<string, bool>
    var saving: Saving
    var postId: Option<int>

    /** Every ref of the store. */
    function State(): EditorState
      reads this
    {
      EditorState(step, writing.title, writing.content, writing.excerpt, writing.slug, writing.customSlug,
        taxonomy.categoryId, taxonomy.tags, publishing.status, publishing.scheduledTime, publishing.featuredImage,
        settings, editorSettings, saving.lastSavedTime, saving.hasUnsavedChanges, saving.customSaveStatus, postId)
    }

    ghost predicate Valid()
      reads this
    {
      1 <= step <= 3
    }

    constructor()
      ensures State() == Initial && Valid()
    {
      step := 1;
      writing := Writing("", "", "", "", false);
      taxonomy := Taxonomy(None, []);
      publishing := Publishing("draft", None, None);
      settings := DefaultSettings;
      editorSettings := DefaultEditorSettings;
      saving := Saving(None, false, "");
      postId := None;
    }

    /** `canPublish`: a title and content with something other than white
        space, and a chosen category. */
    function CanPublish(): (b: bool)
      reads this
      ensures b <==> (exists i :: 0 <= i < |writing.title| && !JsText.IsSpace(writing.title[i])) &&
                     (exists i :: 0 <= i < |writing.content| && !JsText.IsSpace(writing.content[i])) &&
                     CategoryChosen(taxonomy.categoryId)
    {
      JsText.TrimEmpty(writing.title);
      JsText.TrimEmpty(writing.content);
      JsText.Trim(writing.title) != [] && JsText.Trim(writing.content) != [] && CategoryChosen(taxonomy.categoryId)
    }

    /** `lastSaveStatus`: a custom message wins, then "not saved" when there
        was no save, then the time of the last save. */
    function LastSaveStatus(): (r: SaveStatus)
      reads this
      ensures saving.customSaveStatus != [] ==> r == Custom(saving.customSaveStatus)
      ensures saving.customSaveStatus == [] && saving.lastSavedTime.None? ==> r == NotSaved
      ensures saving.customSaveStatus == [] && saving.lastSavedTime.Some? ==> r == SavedAt(saving.lastSavedTime.value)
    {
      if saving.customSaveStatus != [] then Custom(saving.customSaveStatus)
      else match saving.lastSavedTime
        case None => NotSaved
        case Some(t) => SavedAt(t)
    }

    /** `nextStep`: forward one step, but never past 3. */
    method NextStep()
      requires Valid()
      modifies this
      ensures Valid()
      ensures State() == old(State()).(step := if old(step) < 3 then old(step) + 1 else 3)
    {
      if step < 3 {
        step := step + 1;
      }
    }

    /** `prevStep`: back one step, but never before 1. */
    method PrevStep()
      requires Valid()
      modifies this
      ensures Valid()
      ensures State() == old(State()).(step := if old(step) > 1 then old(step) - 1 else 1)
    {
      if step > 1 {
        step := step - 1;
      }
    }

    /** `goToStep`: only a target within 1..3 is taken. */
    method GoToStep(target: int)
      requires Valid()
      modifies this
      ensures Valid()
      ensures State() == old(State()).(step := if 1 <= target <= 3 then target else old(step))
    {
      if 1 <= target <= 3 {
        step := target;
      }
    }

    /** `setTitle`: the slug is derived from the title only while it is
        empty. */
    method SetTitle(newTitle: string, now: nat)
      requires Valid()
      modifies this
      ensures Valid()
      ensures State() == old(State()).(title := newTitle,
        slug := if old(writing.slug) == [] then JsText.Slugify(newTitle, now) else old(writing.slug),
        hasUnsavedChanges := true)
    {
      writing := writing.(title := newTitle);
      if writing.slug == [] {
        writing := writing.(slug := JsText.Slugify(newTitle, now));
      }
      MarkAsChanged();
    }

    /** `setContent`: the excerpt becomes the first 200 characters and "..."
        only while it is empty. */
    method SetContent(newContent: string)
      requires Valid()
      modifies this
      ensures Valid()
      ensures State() == old(State()).(content := newContent,
        excerpt := if old(writing.excerpt) == [] then Prefix200(newContent) + "..." else old(writing.excerpt),
        hasUnsavedChanges := true)
    {
      writing := writing.(content := newContent);
      if writing.excerpt == [] {
        writing := writing.(excerpt := Prefix200(writing.content) + "...");
      }
      MarkAsChanged();
    }

    method SetExcerpt(newExcerpt: string)
      requires Valid()
      modifies this
      ensures Valid()
      ensures State() == old(State()).(excerpt := newExcerpt, hasUnsavedChanges := true)
    {
      writing := writing.(excerpt := newExcerpt);
      MarkAsChanged();
    }

    /** `setSlug`: whatever is typed is slugified. */
    method SetSlug(newSlug: string, now: nat)
      requires Valid()
      modifies this
      ensures Valid()
      ensures State() == old(State()).(slug := JsText.Slugify(newSlug, now), hasUnsavedChanges := true)
      ensures !JsText.HasHan(newSlug) ==> JsText.IsSlug(writing.slug)
    {
      writing := writing.(slug := JsText.Slugify(newSlug, now));
      MarkAsChanged();
    }

    /** `setCustomSlug`: as `setSlug`, and the slug is marked as chosen. */
    method SetCustomSlug(newSlug: string, now: nat)
      requires Valid()
      modifies this
      ensures Valid()
      ensures State() == old(State()).(customSlug := true, slug := JsText.Slugify(newSlug, now), hasUnsavedChanges := true)
    {
      writing := writing.(customSlug := true, slug := JsText.Slugify(newSlug, now));
      MarkAsChanged();
    }

    method SetCategory(newCategoryId: Option<int>)
      requires Valid()
      modifies this
      ensures Valid()
      ensures State() == old(State()).(categoryId := newCategoryId, hasUnsavedChanges := true)
    {
      taxonomy := taxonomy.(categoryId := newCategoryId);
      MarkAsChanged();
    }

    /** `addTag`: a tag already in the list changes nothing; a new one is
        appended and marks a change. */
    method AddTag(tag: Tag)
      requires Valid()
      modifies this
      ensures Valid()
      ensures tag in old(taxonomy.tags) ==> State() == old(State())
      ensures tag !in old(taxonomy.tags) ==>
        State() == old(State()).(tags := old(taxonomy.tags) + [tag], hasUnsavedChanges := true)
      ensures NoDuplicates(old(taxonomy.tags)) ==> NoDuplicates(taxonomy.tags)
    {
      if tag !in taxonomy.tags {
        taxonomy := taxonomy.(tags := taxonomy.tags + [tag]);
        MarkAsChanged();
      }
    }

    /** `removeTag`: by id, every tag with that id goes and a change is
        marked even when none did; by object, its first occurrence goes and
        a change is marked only when it was there. */
    method RemoveTag(ref: TagRef)
      requires Valid()
      modifies this
      ensures Valid()
      ensures ref.ByKey? ==>
        State() == old(State()).(tags := WithoutKey(old(taxonomy.tags), ref.key), hasUnsavedChanges := true)
      ensures ref.ByTag? && ref.tag !in old(taxonomy.tags) ==> State() == old(State())
      ensures ref.ByTag? && ref.tag in old(taxonomy.tags) ==>
        var i := FirstIndex(old(taxonomy.tags), ref.tag).value;
        State() == old(State()).(tags := old(taxonomy.tags)[..i] + old(taxonomy.tags)[i + 1..], hasUnsavedChanges := true)
      ensures NoDuplicates(old(taxonomy.tags)) ==> NoDuplicates(taxonomy.tags)
      ensures NoDuplicates(old(taxonomy.tags)) && ref.ByTag? ==> ref.tag !in taxonomy.tags
    {
      match ref
      case ByKey(key) =>
        taxonomy := taxonomy.(tags := WithoutKey(taxonomy.tags, key));
        MarkAsChanged();
      case ByTag(tag) =>
        var index := FirstIndex(taxonomy.tags, tag);
        if index.Some? {
          var i := index.value;
          if NoDuplicates(taxonomy.tags) {
            RemoveAtKeepsDistinct(taxonomy.tags, i);
          }
          taxonomy := taxonomy.(tags := taxonomy.tags[..i] + taxonomy.tags[i + 1..]);
          MarkAsChanged();
        }
    }

    method SetTags(newTags: seq<Tag>)
      requires Valid()
      modifies this
      ensures Valid()
      ensures State() == old(State()).(tags := newTags, hasUnsavedChanges := true)
    {
      taxonomy := taxonomy.(tags := newTags);
      MarkAsChanged();
    }

    method SetStatus(newStatus: string)
      requires Valid()
      modifies this
      ensures Valid()
      ensures State() == old(State()).(status := newStatus, hasUnsavedChanges := true)
    {
      publishing := publishing.(status := newStatus);
      MarkAsChanged();
    }

    method SetScheduledTime(time: Option<string>)
      requires Valid()
      modifies this
      ensures Valid()
      ensures State() == old(State()).(scheduledTime := time, hasUnsavedChanges := true)
    {
      publishing := publishing.(scheduledTime := time);
      MarkAsChanged();
    }

    method SetFeaturedImage(imageUrl: Option<string>)
      requires Valid()
      modifies this
      ensures Valid()
      ensures State() == old(State()).(featuredImage := imageUrl, hasUnsavedChanges := true)
    {
      publishing := publishing.(featuredImage := imageUrl);
      MarkAsChanged();
    }

    /** `setFeaturedImageUrl` is the same operation under another name. */
    method SetFeaturedImageUrl(imageUrl: Option<string>)
      requires Valid()
      modifies this
      ensures Valid()
      ensures State() == old(State()).(featuredImage := imageUrl, hasUnsavedChanges := true)
    {
      SetFeaturedImage(imageUrl);
    }

    /** `updateSettings`: the given keys override, the others stay. */
    method UpdateSettings(newSettings: map<string, bool>)
      requires Valid()
      modifies this
      ensures Valid()
      ensures State() == old(State()).(settings := old(settings) + newSettings, hasUnsavedChanges := true)
    {
      settings := settings + newSettings;
      MarkAsChanged();
    }

    /** `updateEditorSettings` merges the same way but is not a content
        change. */
    method UpdateEditorSettings(newSettings: map<string, bool>)
      requires Valid()
      modifies this
      ensures Valid()
      ensures State() == old(State()).(editorSettings := old(editorSettings) + newSettings)
    {
      editorSettings := editorSettings + newSettings;
    }

    method MarkAsChanged()
      modifies this
      ensures State() == old(State()).(hasUnsavedChanges := true)
    {
      saving := saving.(hasUnsavedChanges := true);
    }

    /** `markAsSaved`: clears the flag and stamps the save time. */
    method MarkAsSaved(now: int)
      requires Valid()
      modifies this
      ensures Valid()
      ensures State() == old(State()).(hasUnsavedChanges := false, lastSavedTime := Some(now))
      ensures LastSaveStatus() == if saving.customSaveStatus != [] then Custom(saving.customSaveStatus) else SavedAt(now)
    {
      saving := saving.(hasUnsavedChanges := false, lastSavedTime := Some(now));
    }

    /** `loadPost`: no post changes nothing; otherwise the fields are taken
        with their fallbacks, the custom-slug flag is cleared, settings are
        merged, and the flag is cleared without stamping a save. */
    method LoadPost(post: Option<LoadedPost>)
      requires Valid()
      modifies this
      ensures Valid()
      ensures post.None? ==> State() == old(State())
      ensures post.Some? ==> State() == Loaded(old(State()), post.value)
    {
      if post.None? {
        return;
      }
      var r := Loaded(State(), post.value);
      postId := r.postId;
      writing := Writing(r.title, r.content, r.excerpt, r.slug, r.customSlug);
      taxonomy := Taxonomy(r.categoryId, r.tags);
      publishing := Publishing(r.status, r.scheduledTime, r.featuredImage);
      settings := r.settings;
      saving := saving.(hasUnsavedChanges := r.hasUnsavedChanges);
    }

    /** `$reset`: every ref returns to its starting value, except the
        custom save message, which `$reset` does not touch. */
    method Reset()
      modifies this
      ensures Valid()
      ensures State() == Initial.(customSaveStatus := old(saving.customSaveStatus))
    {
      step := 1;
      writing := Writing("", "", "", "", false);
      taxonomy := Taxonomy(None, []);
      publishing := Publishing("draft", None, None);
      settings := DefaultSettings;
      editorSettings := DefaultEditorSettings;
      saving := saving.(lastSavedTime := None, hasUnsavedChanges := false);
      postId := None;
    }
  }

  /** `content.slice(0, 200)`. */
  function Prefix200(s: string): (r: string)
    ensures |r| <= 200 && r <= s
    ensures |s| <= 200 ==> r == s
  {
    if |s| <= 200 then s else s[..200]
  }

  /** The state `loadPost(post)` leaves: `x || fallback` for each field. */
  function Loaded(s: EditorState, p: LoadedPost): (r: EditorState)
    ensures r.step == s.step && r.lastSavedTime == s.lastSavedTime && r.editorSettings == s.editorSettings
    ensures r.customSaveStatus == s.customSaveStatus && !r.customSlug && !r.hasUnsavedChanges
    ensures r.status != [] && (r.categoryId.Some? ==> CategoryChosen(r.categoryId))
    ensures forall k :: k in s.settings && (p.settings.None? || k !in p.settings.value) ==> k in r.settings && r.settings[k] == s.settings[k]
  {
    s.(postId := p.id,
       title := p.title.GetOr(""),
       content := p.content.GetOr(""),
       excerpt := p.excerpt.GetOr(""),
       slug := p.slug.GetOr(""),
       customSlug := false,
       categoryId := if CategoryChosen(p.categoryId) then p.categoryId else None,
       tags := p.tags.GetOr([]),
       status := if p.status.Some? && p.status.value != [] then p.status.value else "draft",
       scheduledTime := if p.scheduledPublishAt.Some? && p.scheduledPublishAt.value != [] then p.scheduledPublishAt else None,
       featuredImage := if p.featuredImage.Some? && p.featuredImage.value != [] then p.featuredImage else None,
       settings := if p.settings.Some? then s.settings + p.settings.value else s.settings,
       hasUnsavedChanges := false)
  }
}
