/** Posts, drafts and revisions as the controllers and the scheduler see them,
    the HTML stripping and excerpt rule used when saving a post, and the
    numbered-suffix search for a free slug. */
module Content {
  import opened Common
  import opened Php
  import Decimal

  /** A `posts` row. `storedStatus` is the raw column; the status the
      application reads is derived from `publishedAt` (see `Status`). */
  datatype Post = Post(
    id: int,
    authorId: int,
    title: string,
    slug: string,
    content: string,
    excerpt: Option<string>,
    featuredImage: Option<string>,
    storedStatus: Option<string>,
    publishedAt: Option<int>,
    scheduledPublishAt: Option<int>,
    categoryId: Option<int>,
    allowComments: Option<bool>,
    featured: Option<bool>,
    views: int,
    createdAt: int,
    /** Soft-deleted: invisible to every query of the model. */
    deleted: bool)

  /** The `status` accessor: "published" exactly when a publication time is set. */
  function Status(p: Post): (s: string)
    ensures s == "published" <==> p.publishedAt.Some?
  {
    if p.publishedAt.Some? then "published" else "draft"
  }

  /** A `drafts` row. Every content column is nullable except `status`,
      which is NOT NULL with default 'draft'; its `Option` is the model
      attribute, which stays null on a new draft until something sets it. */
  datatype Draft = Draft(
    id: int,
    userId: int,
    postId: Option<int>,
    fields: DraftFields,
    updatedAt: int)

  datatype DraftFields = DraftFields(
    title: Option<string>,
    content: Option<string>,
    excerpt: Option<string>,
    slug: Option<string>,
    categoryId: Option<int>,
    tags: Option<seq<int>>,
    status: Option<string>,
    featuredImage: Option<string>,
    settings: Option<map<string, Scalar>>)

  /** A `post_revisions` row, as far as restoring needs it. */
  datatype Revision = Revision(id: int, postId: int)

  /** Slugs of the posts a `Post::where('slug', …)` query can see. */
  function LiveSlugs(posts: seq<Post>): set<string> {
    set p | p in posts && !p.deleted :: p.slug
  }

  /** No two live posts share a slug. */
  predicate SlugsUnique(posts: seq<Post>) {
    forall i, j :: 0 <= i < |posts| && 0 <= j < |posts| && i != j && !posts[i].deleted && !posts[j].deleted ==>
      posts[i].slug != posts[j].slug
  }

  /** Post ids are distinct. */
  predicate IdsUnique(posts: seq<Post>) {
    forall i, j :: 0 <= i < |posts| && 0 <= j < |posts| && i != j ==> posts[i].id != posts[j].id
  }

  /** Post ids are distinct and below the next auto-increment id, live slugs
      are distinct, and no slug is empty or "0". */
  predicate PostsValid(posts: seq<Post>, nextId: int) {
    IdsUnique(posts) && SlugsUnique(posts) &&
    forall i :: 0 <= i < |posts| ==> posts[i].id < nextId && Truthy(posts[i].slug)
  }

  /** Appending a post with the next id and a fresh, non-empty slug keeps the table valid. */
  lemma AppendKeepsValid(posts: seq<Post>, nextId: int, p: Post)
    requires PostsValid(posts, nextId)
    requires p.id == nextId && p.slug !in LiveSlugs(posts) && Truthy(p.slug)
    ensures PostsValid(posts + [p], nextId + 1)
  {
    var ps := posts + [p];
    forall i, j | 0 <= i < |ps| && 0 <= j < |ps| && i != j && !ps[i].deleted && !ps[j].deleted
      ensures ps[i].slug != ps[j].slug
    {
      if i == |posts| {
        assert ps[j] in posts;
      } else if j == |posts| {
        assert ps[i] in posts;
      }
    }
  }

  /** The slugs of the live posts other than the one with the given id
      (`where('slug', …)->where('id', '!=', $id)`). */
  function OtherSlugs(posts: seq<Post>, id: int): set<string> {
    set p | p in posts && !p.deleted && p.id != id :: p.slug
  }

  /** Replacing a live post by a live version with the same id and a non-empty
      slug no other live post uses keeps the table valid. */
  lemma ReplaceKeepsValid(posts: seq<Post>, nextId: int, i: int, p: Post)
    requires PostsValid(posts, nextId) && 0 <= i < |posts|
    requires p.id == posts[i].id && p.slug !in OtherSlugs(posts, p.id) && Truthy(p.slug)
    ensures PostsValid(posts[i := p], nextId)
  {
    var ps := posts[i := p];
    forall a, b | 0 <= a < |ps| && 0 <= b < |ps| && a != b && !ps[a].deleted && !ps[b].deleted
      ensures ps[a].slug != ps[b].slug
    {
      if a == i {
        assert ps[b] == posts[b] && posts[b].id != p.id;
      } else if b == i {
        assert ps[a] == posts[a] && posts[a].id != p.id;
      }
    }
  }

  /** A live post's slug is used by no other live post. */
  lemma OwnSlugIsNotAnothers(posts: seq<Post>, nextId: int, i: int)
    requires PostsValid(posts, nextId) && 0 <= i < |posts| && !posts[i].deleted
    ensures posts[i].slug !in OtherSlugs(posts, posts[i].id)
  {
    forall q | q in posts && !q.deleted && q.id != posts[i].id
      ensures q.slug != posts[i].slug
    {
      var j :| 0 <= j < |posts| && posts[j] == q;
    }
  }

  /** Changing fields other than id, slug and deletion keeps the table valid. */
  lemma SameKeysKeepValid(posts: seq<Post>, nextId: int, qs: seq<Post>)
    requires PostsValid(posts, nextId) && |qs| == |posts|
    requires forall i :: 0 <= i < |qs| ==> qs[i].id == posts[i].id && qs[i].slug == posts[i].slug && qs[i].deleted == posts[i].deleted
    ensures PostsValid(qs, nextId)
  {
  }

  /** The index of the live post with the given id (`Post::find`). */
  function LiveIndex(posts: seq<Post>, id: int): (r: Option<nat>)
    ensures r.Some? ==> r.value < |posts| && posts[r.value].id == id && !posts[r.value].deleted
    ensures r.None? ==> forall i :: 0 <= i < |posts| && posts[i].id == id ==> posts[i].deleted
  {
    if |posts| == 0 then None
    else if posts[|posts| - 1].id == id && !posts[|posts| - 1].deleted then Some(|posts| - 1)
    else LiveIndex(posts[..|posts| - 1], id)
  }

  /** Content and scheduling tables at one moment. */
  datatype ContentState = ContentState(
    posts: seq<Post>,
    /** The `post_tag` pivot as (post id, tag id). */
    postTags: set<(int, int)>,
    drafts: seq<Draft>,
    nextPostId: int,
    nextDraftId: int)

  /** The tables the controllers and the scheduler change. */
  class ContentDb {
    var posts: seq<Post>
    var postTags: set<(int, int)>
    var drafts: seq<Draft>
    var nextPostId: int
    var nextDraftId: int

    function State(): ContentState
      reads this
    {
      ContentState(posts, postTags, drafts, nextPostId, nextDraftId)
    }

    predicate Valid()
      reads this
    {
      PostsValid(posts, nextPostId)
    }

    constructor ()
      ensures State() == ContentState([], {}, [], 1, 1) && Valid()
    {
      posts := [];
      postTags := {};
      drafts := [];
      nextPostId := 1;
      nextDraftId := 1;
    }
  }

  // ------------------------------------------------------------- HTML text

  /** Where `strip_tags` is: in text, in a tag, in a `<!` declaration or in
      a `<!--` comment. */
  datatype Mode = Text | Tag | Declaration | Comment

  /** The scanner's state: its mode, the quote character it is inside (if
      any) and how many '<' are open inside the current tag. */
  datatype Scan = Scan(mode: Mode, quote: Option<char>, depth: nat)

  const Start: Scan := Scan(Text, None, 0)

  /** The character at `k`, or NUL outside the text (the C terminator). */
  function At(s: string, k: int): char {
    if 0 <= k < |s| then s[k] else '\0'
  }

  /** A quote character opens a quote, closes the one it matches, and is
      ignored inside the other kind. */
  function Toggle(st: Scan, c: char): Scan {
    if st.quote.None? then st.(quote := Some(c))
    else if st.quote == Some(c) then st.(quote := None)
    else st
  }

  /** The character at `k` ends `<!doctyp`: the case-insensitive "doctyp" stands
      right before it. */
  predicate DoctypeAt(s: string, k: nat) {
    k > 6 &&
    (At(s, k - 6) == 'd' || At(s, k - 6) == 'D') && (At(s, k - 5) == 'o' || At(s, k - 5) == 'O') &&
    (At(s, k - 4) == 'c' || At(s, k - 4) == 'C') && (At(s, k - 3) == 't' || At(s, k - 3) == 'T') &&
    (At(s, k - 2) == 'y' || At(s, k - 2) == 'Y') && (At(s, k - 1) == 'p' || At(s, k - 1) == 'P')
  }

  /** A '>' that closes a tag or declaration: an open nested '<' is closed
      first, and a '>' inside quotes closes nothing. */
  function Close(st: Scan): Scan {
    if st.depth > 0 then st.(depth := st.depth - 1)
    else if st.quote.Some? then st
    else Start
  }

  /** The state after reading the character at `k`. */
  function Next(s: string, k: nat, st: Scan): Scan
    requires k < |s|
  {
    match st.mode
    case Text => InText(s, k, st)
    case Tag => InTag(s, k, st)
    case Declaration => InDeclaration(s, k, st)
    case Comment => InComment(s, k, st)
  }

  /** In text a '<' opens a tag unless whitespace follows it; a '>' closes
      a nested '<' left open by a comment. */
  function InText(s: string, k: nat, st: Scan): Scan
    requires k < |s|
  {
    var c := s[k];
    if c == '<' && !IsSpace(At(s, k + 1)) then st.(mode := Tag)
    else if c == '>' && st.depth > 0 then st.(depth := st.depth - 1)
    else st
  }

  /** In a tag an unquoted '<' nests, '>' closes, quotes toggle, and `<!`
      starts a declaration. */
  function InTag(s: string, k: nat, st: Scan): Scan
    requires k < |s|
  {
    var c := s[k];
    if c == '<' then
      (if st.quote.None? && !IsSpace(At(s, k + 1)) then st.(depth := st.depth + 1) else st)
    else if c == '>' then Close(st)
    else if c == '"' || c == '\'' then Toggle(st, c)
    else if c == '!' && At(s, k - 1) == '<' then st.(mode := Declaration)
    else st
  }

  /** In a declaration '>' closes, unescaped quotes toggle, `<!--` starts a
      comment and `<!doctype` continues as a tag. */
  function InDeclaration(s: string, k: nat, st: Scan): Scan
    requires k < |s|
  {
    var c := s[k];
    if c == '>' then Close(st)
    else if c == '"' || c == '\'' then (if At(s, k - 1) != '\\' then Toggle(st, c) else st)
    else if c == '-' && At(s, k - 1) == '-' && At(s, k - 2) == '!' then st.(mode := Comment)
    else if (c == 'e' || c == 'E') && DoctypeAt(s, k) then st.(mode := Tag)
    else st
  }

  /** The character at `k` is the '>' of a `-->`. */
  predicate EndsComment(s: string, k: int) {
    At(s, k) == '>' && At(s, k - 1) == '-' && At(s, k - 2) == '-'
  }

  /** A comment ends at an unquoted `-->`; the nesting depth survives it. */
  function InComment(s: string, k: nat, st: Scan): Scan
    requires k < |s|
  {
    if EndsComment(s, k) && st.quote.None? then Scan(Text, None, st.depth)
    else st
  }

  /** What the character at `k` adds to the output: only text is kept, a
      '<' only when whitespace follows it, a '>' only when no nested '<' is
      still open, and NUL never. */
  function Emit(s: string, k: nat, st: Scan): (r: string)
    requires k < |s|
    ensures |r| <= 1 && (|r| == 1 ==> r[0] == s[k])
  {
    var c := s[k];
    if st.mode != Text || c == '\0' then []
    else if c == '<' then (if IsSpace(At(s, k + 1)) then [c] else [])
    else if c == '>' then (if st.depth > 0 then [] else [c])
    else [c]
  }

  /** Every '<' of `t` is followed by whitespace: it opens no tag. */
  predicate OpensNoTag(t: string) {
    forall i :: 0 <= i < |t| && t[i] == '<' ==> i + 1 < |t| && IsSpace(t[i + 1])
  }

  /** What `strip_tags` may leave: no NUL and no '<' that opens a tag. */
  predicate TagFree(t: string) {
    OpensNoTag(t) && '\0' !in t
  }

  /** The output of `strip_tags` from position `k` on, in state `st`. */
  function StripFrom(s: string, k: nat, st: Scan): (r: string)
    requires k <= |s|
    ensures |r| <= |s| - k
    decreases |s| - k
  {
    if k == |s| then [] else Emit(s, k, st) + StripFrom(s, k + 1, Next(s, k, st))
  }

  /** In text, the output from a whitespace character starts with it. */
  lemma SpaceStartsOutput(s: string, k: nat, st: Scan)
    requires k < |s| && st.mode == Text && IsSpace(s[k])
    ensures |StripFrom(s, k, st)| > 0 && StripFrom(s, k, st)[0] == s[k]
  {
    assert Emit(s, k, st) == [s[k]];
  }

  /** The scanner's output opens no tag and holds no NUL. */
  lemma {:induction false} StripFromTagFree(s: string, k: nat, st: Scan)
    requires k <= |s|
    ensures TagFree(StripFrom(s, k, st))
    decreases |s| - k
  {
    if k < |s| {
      var n := Next(s, k, st);
      StripFromTagFree(s, k + 1, n);
      EmittedAngle(s, k, st);
      if Emit(s, k, st) == ['<'] {
        SpaceStartsOutput(s, k + 1, n);
      }
      PrependTagFree(Emit(s, k, st), StripFrom(s, k + 1, n));
    }
  }

  /** A written character is never NUL, and a written '<' is followed by
      whitespace and leaves the scanner in text. */
  lemma EmittedAngle(s: string, k: nat, st: Scan)
    requires k < |s|
    ensures Emit(s, k, st) != ['\0']
    ensures Emit(s, k, st) == ['<'] ==>
      k + 1 < |s| && IsSpace(s[k + 1]) && Next(s, k, st) == st && st.mode == Text
  {
  }

  /** One character put in front of tag-free text keeps it tag-free, unless
      it is NUL, or a '<' not followed by whitespace. */
  lemma PrependTagFree(e: string, rest: string)
    requires |e| <= 1 && e != ['\0'] && TagFree(rest)
    requires e == ['<'] ==> |rest| > 0 && IsSpace(rest[0])
    ensures TagFree(e + rest)
  {
    assert forall i :: 0 <= i < |rest| ==> (e + rest)[|e| + i] == rest[i];
  }

  /** `strip_tags($s)`, as PHP's scanner does it without allowed tags: tags,
      declarations and comments go, quotes inside them are respected, and a
      '<' followed by whitespace is ordinary text. */
  function StripTags(s: string): (r: string)
    ensures |r| <= |s| && TagFree(r)
  {
    StripFromTagFree(s, 0, Start);
    StripFrom(s, 0, Start)
  }

  /** Text that opens no tag and holds no NUL goes through the scanner
      unchanged, and the scanner is back at the start after it. */
  lemma {:induction false} StripFromText(t: string, k: nat, j: nat)
    requires k <= j <= |t| && TagFree(t[k..j])
    ensures StripFrom(t, k, Start) == t[k..j] + StripFrom(t, j, Start)
    decreases j - k
  {
    if k < j {
      TagFreeTail(t, k, j);
      TextStep(t, k);
      StripFromText(t, k + 1, j);
      assert t[k..j] == [t[k]] + t[k + 1..j];
    }
  }

  /** The first character of a tag-free slice is no NUL, a '<' in it is
      followed by whitespace, and the rest of the slice is tag-free too. */
  lemma TagFreeTail(t: string, k: nat, j: nat)
    requires k < j <= |t| && TagFree(t[k..j])
    ensures t[k] != '\0' && (t[k] == '<' ==> k + 1 < |t| && IsSpace(t[k + 1]))
    ensures TagFree(t[k + 1..j])
  {
    var u := t[k..j];
    assert u[0] == t[k];
    assert u[0] == '<' ==> IsSpace(u[1]) && u[1] == t[k + 1];
    assert t[k + 1..j] == u[1..];
    assert forall i :: 0 <= i < |u| - 1 ==> u[1..][i] == u[i + 1];
  }

  /** In text, a character that is no NUL and opens no tag is written as
      it is and leaves the scanner at the start. */
  lemma TextStep(t: string, k: nat)
    requires k < |t| && t[k] != '\0' && (t[k] == '<' ==> k + 1 < |t| && IsSpace(t[k + 1]))
    ensures Emit(t, k, Start) == [t[k]] && Next(t, k, Start) == Start
  {
  }

  /** `strip_tags` changes a text exactly when the text opens a tag or holds
      a NUL. */
  lemma StripTagsKeepsExactlyTagFree(s: string)
    ensures StripTags(s) == s <==> TagFree(s)
  {
    if TagFree(s) {
      assert s[0..|s|] == s;
      StripFromText(s, 0, |s|);
    }
  }

  /** Stripping is idempotent: stripped text has nothing left to strip. */
  lemma StripTagsIdempotent(s: string)
    ensures StripTags(StripTags(s)) == StripTags(s)
  {
    StripTagsKeepsExactlyTagFree(StripTags(s));
  }

  /** One step of the scanner. */
  lemma StripStep(s: string, k: nat, st: Scan)
    requires k < |s|
    ensures StripFrom(s, k, st) == Emit(s, k, st) + StripFrom(s, k + 1, Next(s, k, st))
  {
  }

  /** A step that writes nothing and moves the scanner to state `next`. */
  lemma SilentStep(s: string, k: nat, st: Scan, next: Scan)
    requires k < |s| && st.mode != Text && Next(s, k, st) == next
    ensures StripFrom(s, k, st) == StripFrom(s, k + 1, next)
  {
  }

  /** A character that does nothing inside a tag outside quotes. */
  predicate TagQuiet(c: char) {
    c != '<' && c != '>' && c != '"' && c != '\'' && c != '!'
  }

  /** Inside a tag, outside quotes, characters other than `<`, `>`, quotes
      and `!` change nothing and are dropped. */
  lemma {:induction false} TagRun(t: string, k: nat, j: nat, st: Scan)
    requires k <= j <= |t| && st.mode == Tag && st.quote.None?
    requires forall i :: k <= i < j ==> TagQuiet(t[i])
    ensures StripFrom(t, k, st) == StripFrom(t, j, st)
    decreases j - k
  {
    if k < j {
      assert Next(t, k, st) == st;
      TagRun(t, k + 1, j, st);
    }
  }

  /** Inside a quoted value, characters other than the closing quote and `!`
      change nothing and are dropped, a '>' included. */
  lemma {:induction false} QuotedRun(t: string, k: nat, j: nat, st: Scan)
    requires k <= j <= |t| && st.mode == Tag && st.quote.Some? && st.depth == 0
    requires forall i :: k <= i < j ==> t[i] != st.quote.value && t[i] != '!'
    ensures StripFrom(t, k, st) == StripFrom(t, j, st)
    decreases j - k
  {
    if k < j {
      assert Next(t, k, st) == st;
      QuotedRun(t, k + 1, j, st);
    }
  }

  /** Inside a comment, every character up to a '>' right after "--" is
      dropped, tags included. */
  lemma {:induction false} CommentRun(t: string, k: nat, j: nat, st: Scan)
    requires k <= j <= |t| && st.mode == Comment && st.quote.None?
    requires forall i :: k <= i < j ==> !EndsComment(t, i)
    ensures StripFrom(t, k, st) == StripFrom(t, j, st)
    decreases j - k
  {
    if k < j {
      assert Next(t, k, st) == st;
      CommentRun(t, k + 1, j, st);
    }
  }

  /** '<', a tag name and an opening quote: the scanner is inside the
      quoted value and has written nothing. */
  lemma OpenQuotedTag(t: string, n: nat)
    requires 1 < n < |t| && t[0] == '<' && !IsSpace(t[1]) && t[n] == '"'
    requires forall i :: 1 <= i < n ==> TagQuiet(t[i])
    ensures StripFrom(t, 0, Start) == StripFrom(t, n + 1, Scan(Tag, Some('"'), 0))
  {
    var tag := Scan(Tag, None, 0);
    StripStep(t, 0, Start);
    TagRun(t, 1, n, tag);
    StripStep(t, n, tag);
  }

  /** A quoted value, its closing quote and '>': the scanner is back in text
      and has written nothing. */
  lemma CloseQuotedTag(t: string, k: nat, p: nat)
    requires k <= p && p + 2 <= |t| && t[p] == '"' && t[p + 1] == '>'
    requires forall i :: k <= i < p ==> t[i] != '"' && t[i] != '!'
    ensures StripFrom(t, k, Scan(Tag, Some('"'), 0)) == StripFrom(t, p + 2, Start)
  {
    var quoted := Scan(Tag, Some('"'), 0);
    QuotedRun(t, k, p, quoted);
    StripStep(t, p, quoted);
    StripStep(t, p + 1, Scan(Tag, None, 0));
  }

  /** `<!--`: the scanner is inside a comment and has written nothing. */
  lemma OpenComment(t: string, n: nat)
    requires n + 4 <= |t|
    requires t[n] == '<' && t[n + 1] == '!' && t[n + 2] == '-' && t[n + 3] == '-'
    ensures StripFrom(t, n, Start) == StripFrom(t, n + 4, Scan(Comment, None, 0))
  {
    var tag, decl := Scan(Tag, None, 0), Scan(Declaration, None, 0);
    StripStep(t, n, Start);
    assert Emit(t, n, Start) == [] && Next(t, n, Start) == tag;
    SilentStep(t, n + 1, tag, decl);
    SilentStep(t, n + 2, decl, decl);
    SilentStep(t, n + 3, decl, Scan(Comment, None, 0));
  }

  /** A comment body and `-->`: the scanner is back in text and has written
      nothing. */
  lemma CloseComment(t: string, k: nat, q: nat)
    requires k <= q && q + 3 <= |t| && k >= 2
    requires forall i :: k <= i < q ==> !EndsComment(t, i)
    requires t[q] == '-' && t[q + 1] == '-' && t[q + 2] == '>'
    ensures StripFrom(t, k, Scan(Comment, None, 0)) == StripFrom(t, q + 3, Start)
  {
    var comment := Scan(Comment, None, 0);
    CommentRun(t, k, q, comment);
    StripStep(t, q, comment);
    StripStep(t, q + 1, comment);
    StripStep(t, q + 2, comment);
  }

  /** A '<' followed by a space is text, not a tag: "a < b" stays. */
  lemma StripTagsKeepsSpacedAngle()
    ensures StripTags("a < b") == "a < b"
  {
    var t := "a < b";
    assert OpensNoTag(t) by {
      forall i | 0 <= i < |t| && t[i] == '<' ensures i + 1 < |t| && IsSpace(t[i + 1]) {
        assert i == 2;
      }
    }
    StripTagsKeepsExactlyTagFree(t);
  }

  /** A quoted '>' does not end a tag: a tag `<a"v">` whose quoted value may
      hold '>' goes whole, and the text after it stays (`<a b=">">z` leaves
      "z"). */
  lemma StripTagsRespectsQuotes(a: string, v: string, rest: string)
    requires |a| >= 1 && !IsSpace(a[0]) && forall i :: 0 <= i < |a| ==> TagQuiet(a[i])
    requires forall i :: 0 <= i < |v| ==> v[i] != '"' && v[i] != '!'
    requires TagFree(rest)
    ensures StripTags("<" + a + "\"" + v + "\">" + rest) == rest
  {
    var t := "<" + a + "\"" + v + "\">" + rest;
    var n, p := 1 + |a|, 2 + |a| + |v|;
    var quoted := Scan(Tag, Some('"'), 0);
    assert StripFrom(t, 0, Start) == StripFrom(t, n + 1, quoted) by {
      assert t[0] == '<' && t[1] == a[0] && t[n] == '"';
      assert forall i :: 1 <= i < n ==> t[i] == a[i - 1];
      OpenQuotedTag(t, n);
    }
    assert StripFrom(t, n + 1, quoted) == StripFrom(t, p + 2, Start) by {
      assert forall i :: n + 1 <= i < p ==> t[i] == v[i - n - 1];
      assert t[p] == '"' && t[p + 1] == '>';
      CloseQuotedTag(t, n + 1, p);
    }
    assert StripFrom(t, p + 2, Start) == rest by {
      assert t[p + 2..|t|] == rest;
      StripFromText(t, p + 2, |t|);
    }
  }

  /** The `i`-th character of a comment body does not end the comment:
      a '>' neither among its first two characters nor after "--". */
  predicate QuietInComment(c: string, i: int)
    requires 0 <= i < |c|
  {
    c[i] == '>' ==> i >= 2 && !(c[i - 1] == '-' && c[i - 2] == '-')
  }

  /** A comment goes whole, tags inside it included: `a<!--c-->b` leaves
      "ab" as long as `c` does not close the comment early
      (`a<!--<b>-->c` leaves "ac"). */
  lemma StripTagsDropsComments(a: string, c: string, b: string)
    requires TagFree(a) && TagFree(b)
    requires forall i :: 0 <= i < |c| ==> QuietInComment(c, i)
    ensures StripTags(a + "<!--" + c + "-->" + b) == a + b
  {
    var t := a + "<!--" + c + "-->" + b;
    var n := |a|;
    var q := n + 4 + |c|;
    assert t[0..n] == a && t[q + 3..] == b;
    assert StripFrom(t, n, Start) == b by {
      assert t[n] == '<' && t[n + 1] == '!' && t[n + 2] == '-' && t[n + 3] == '-';
      assert t[q] == '-' && t[q + 1] == '-' && t[q + 2] == '>';
      forall i | n + 4 <= i < q ensures !EndsComment(t, i) {
        assert QuietInComment(c, i - n - 4);
        assert t[i] == c[i - n - 4];
        if i - n - 4 >= 2 {
          assert t[i - 1] == c[i - n - 5] && t[i - 2] == c[i - n - 6];
        }
      }
      CommentThenText(t, n, q);
    }
    StripFromText(t, 0, n);
  }

  /** `<!--`, a body and `-->`, then tag-free text: only the text is
      written. */
  lemma CommentThenText(t: string, n: nat, q: nat)
    requires n + 4 <= q && q + 3 <= |t| && TagFree(t[q + 3..])
    requires t[n] == '<' && t[n + 1] == '!' && t[n + 2] == '-' && t[n + 3] == '-'
    requires forall i :: n + 4 <= i < q ==> !EndsComment(t, i)
    requires t[q] == '-' && t[q + 1] == '-' && t[q + 2] == '>'
    ensures StripFrom(t, n, Start) == t[q + 3..]
  {
    OpenComment(t, n);
    CloseComment(t, n + 4, q);
    assert t[q + 3..|t|] == t[q + 3..];
    StripFromText(t, q + 3, |t|);
  }

  /** How a prefix is measured: in UTF-8 bytes (`substr`) or in display
      columns (`mb_strwidth`). */
  datatype Measure = Bytes | Columns

  /** The bytes of a character's UTF-8 encoding. */
  function Utf8Length(c: char): (n: nat)
    ensures 1 <= n <= 4
  {
    if (c as int) < 0x80 then 1
    else if (c as int) < 0x800 then 2
    else if (c as int) < 0x1_0000 then 3
    else 4
  }

  /** The display width `mb_strwidth` gives a character: 2 for the East
      Asian wide and fullwidth ranges of its table, 1 otherwise. */
  function Width(c: char): (n: nat)
    ensures 1 <= n <= 2
  {
    var x := c as int;
    if (0x1100 <= x <= 0x115F) || (0x2E80 <= x <= 0xA4CF && x != 0x303F) || (0xAC00 <= x <= 0xD7A3) ||
       (0xF900 <= x <= 0xFAFF) || (0xFE30 <= x <= 0xFE4F) || (0xFF00 <= x <= 0xFF60) ||
       (0xFFE0 <= x <= 0xFFE6) || (0x2_0000 <= x <= 0x2_FFFD) || (0x3_0000 <= x <= 0x3_FFFD)
    then 2 else 1
  }

  function Size(m: Measure, c: char): (n: nat)
    ensures 1 <= n <= 4
  {
    match m
    case Bytes => Utf8Length(c)
    case Columns => Width(c)
  }

  /** The size of a whole text: its byte length or its `mb_strwidth`. */
  function Measured(m: Measure, s: string): nat {
    if |s| == 0 then 0 else Size(m, s[0]) + Measured(m, s[1..])
  }

  /** The longest prefix of `s` whose size is at most `n`: `substr($s, 0, $n)`
      for bytes and `mb_strimwidth($s, 0, $n, '')` for columns. */
  function Within(m: Measure, s: string, n: nat): (r: string)
    ensures r <= s && Measured(m, r) <= n
    ensures |r| < |s| ==> Measured(m, s[..|r| + 1]) > n
    ensures Measured(m, s) <= n ==> r == s
  {
    if |s| == 0 || Size(m, s[0]) > n then
      assert |s| > 0 ==> s[..1] == [s[0]] && Measured(m, s[..1]) == Size(m, s[0]);
      []
    else
      var r := Within(m, s[1..], n - Size(m, s[0]));
      assert ([s[0]] + r)[1..] == r;
      assert |r| < |s| - 1 ==> s[..|r| + 2][1..] == s[1..][..|r| + 1];
      [s[0]] + r
  }

  /** A text whose characters all have size `w` measures `w` per character. */
  lemma {:induction false} MeasuredUniform(m: Measure, s: string, w: nat)
    requires forall i :: 0 <= i < |s| ==> Size(m, s[i]) == w
    ensures Measured(m, s) == |s| * w
    decreases |s|
  {
    if |s| > 0 {
      assert Size(m, s[0]) == w;
      MeasuredUniform(m, s[1..], w);
    }
  }

  /** The prefix of a text whose characters all have size `w`, when `c` of
      them fit in `n` but `c + 1` do not: the first `c` characters. */
  lemma UniformPrefix(m: Measure, s: string, n: nat, w: nat, c: nat)
    requires forall i :: 0 <= i < |s| ==> Size(m, s[i]) == w
    requires c * w <= n < c * w + w
    ensures Within(m, s, n) == if |s| <= c then s else s[..c]
  {
    var r := Within(m, s, n);
    MeasuredUniform(m, r, w);
    FitsAtMost(|r|, c, w, n);
    if |r| < |s| {
      MeasuredUniform(m, s[..|r| + 1], w);
      FitsAtLeast(|r|, c, w, n);
    }
  }

  /** `len` items of size `w` within `n` are at most the `c` that fit. */
  lemma FitsAtMost(len: nat, c: nat, w: nat, n: nat)
    requires len * w <= n < c * w + w
    ensures len <= c
  {
    assert (c + 1) * w == c * w + w;
  }

  /** If one more item than `len` overflows `n`, then `len` is at least the
      `c` that fit. */
  lemma FitsAtLeast(len: nat, c: nat, w: nat, n: nat)
    requires c * w <= n < (len + 1) * w
    ensures len >= c
  {
  }

  /** 200 bytes hold 200 ASCII characters. */
  lemma AsciiByteCapacity(s: string)
    requires forall i :: 0 <= i < |s| ==> (s[i] as int) < 0x80
    ensures Within(Bytes, s, 200) == if |s| <= 200 then s else s[..200]
  {
    assert forall i :: 0 <= i < |s| ==> Size(Bytes, s[i]) == 1;
    UniformPrefix(Bytes, s, 200, 1, 200);
  }

  /** 200 bytes hold only 66 CJK ideographs, 3 bytes each. */
  lemma IdeographByteCapacity(s: string)
    requires forall i :: 0 <= i < |s| ==> 0x4E00 <= (s[i] as int) <= 0x9FFF
    ensures Within(Bytes, s, 200) == if |s| <= 66 then s else s[..66]
  {
    assert forall i :: 0 <= i < |s| ==> Size(Bytes, s[i]) == 3;
    UniformPrefix(Bytes, s, 200, 3, 66);
  }

  /** 200 columns hold 100 CJK ideographs, 2 columns each. */
  lemma IdeographColumnCapacity(s: string)
    requires forall i :: 0 <= i < |s| ==> 0x4E00 <= (s[i] as int) <= 0x9FFF
    ensures Within(Columns, s, 200) == if |s| <= 100 then s else s[..100]
  {
    assert forall i :: 0 <= i < |s| ==> Size(Columns, s[i]) == 2;
    UniformPrefix(Columns, s, 200, 2, 100);
  }

  /** The excerpt `store` derives when none is given:
      `substr(strip_tags($content), 0, 200) . '...'`. */
  function DerivedExcerpt(content: string): (r: string)
    ensures |r| >= 3 && r[|r| - 3..] == "..."
    ensures var p := r[..|r| - 3];
      p <= StripTags(content) && Measured(Bytes, p) <= 200 &&
      (Measured(Bytes, StripTags(content)) <= 200 ==> p == StripTags(content)) &&
      (|p| < |StripTags(content)| ==> Measured(Bytes, StripTags(content)[..|p| + 1]) > 200)
  {
    var p := Within(Bytes, StripTags(content), 200);
    assert (p + "...")[..|p|] == p;
    p + "..."
  }

  /** The characters `rtrim` removes by default. */
  predicate Trimmed(c: char) {
    c == ' ' || c == '\t' || c == '\n' || c == '\r' || c == '\0' || c == '\U{000B}'
  }

  /** `rtrim` with its default character set. */
  function RTrim(s: string): (r: string)
    ensures r <= s
    ensures |r| > 0 ==> !Trimmed(r[|r| - 1])
    ensures forall i :: |r| <= i < |s| ==> Trimmed(s[i])
  {
    if |s| > 0 && Trimmed(s[|s| - 1]) then
      var r := RTrim(s[..|s| - 1]);
      assert forall i :: |r| <= i < |s| - 1 ==> s[i] == s[..|s| - 1][i];
      r
    else s
  }

  /** `Str::limit($s, $n)`: the text itself when its `mb_strwidth` is at most
      `n`, otherwise the widest prefix of at most `n` columns, right-trimmed,
      followed by "...". */
  function Limit(s: string, n: nat): (r: string)
    ensures Measured(Columns, s) <= n ==> r == s
    ensures Measured(Columns, s) > n ==>
      |r| >= 3 && r[|r| - 3..] == "..." &&
      var p, w := r[..|r| - 3], Within(Columns, s, n);
      p <= w && (|p| > 0 ==> !Trimmed(p[|p| - 1])) && forall i :: |p| <= i < |w| ==> Trimmed(w[i])
  {
    if Measured(Columns, s) <= n then s
    else
      var p := RTrim(Within(Columns, s, n));
      assert (p + "...")[..|p|] == p;
      p + "..."
  }

  /** The excerpt a post is saved with: the model's `saving` hook replaces an
      empty (or "0") excerpt by the limited, tag-free content. */
  function SavedExcerpt(excerpt: Option<string>, content: string): (r: string)
    ensures excerpt.Some? && Truthy(excerpt.value) ==> r == excerpt.value
    ensures !(excerpt.Some? && Truthy(excerpt.value)) ==>
      (r == StripTags(content) && Measured(Columns, r) <= 200) ||
      (|r| >= 3 && r[|r| - 3..] == "..." && r[..|r| - 3] <= StripTags(content) &&
       Measured(Columns, r[..|r| - 3]) <= 200)
  {
    if excerpt.Some? && Truthy(excerpt.value) then excerpt.value
    else
      var text := StripTags(content);
      var r := Limit(text, 200);
      if Measured(Columns, text) <= 200 then r
      else
        var p := r[..|r| - 3];
        PrefixMeasured(Columns, p, Within(Columns, text, 200));
        r
  }

  /** A prefix measures no more than the text it starts. */
  lemma {:induction false} PrefixMeasured(m: Measure, p: string, s: string)
    requires p <= s
    ensures Measured(m, p) <= Measured(m, s)
    decreases |p|
  {
    if |p| > 0 {
      PrefixMeasured(m, p[1..], s[1..]);
    } else {
      assert Measured(m, p) == 0;
    }
  }

  /** Saving twice gives the excerpt saving once gives. */
  lemma SavedExcerptSettles(excerpt: Option<string>, content: string)
    ensures SavedExcerpt(Some(SavedExcerpt(excerpt, content)), content) == SavedExcerpt(excerpt, content)
  {
  }

  // ---------------------------------------------------------------- slugs

  /** The k-th slug tried: the base itself, then `base-1`, `base-2`, … */
  function Candidate(base: string, k: nat): string {
    if k == 0 then base else base + "-" + Decimal.Show(k)
  }

  /** Different attempts never produce the same slug. */
  lemma CandidateInjective(base: string, i: nat, j: nat)
    requires Candidate(base, i) == Candidate(base, j)
    ensures i == j
  {
    if i != 0 && j != 0 {
      var a := Candidate(base, i);
      assert a[|base| + 1..] == Decimal.Show(i);
      assert Candidate(base, j)[|base| + 1..] == Decimal.Show(j);
      Decimal.ShowInjective(i, j);
    }
  }

  /** Every attempt from a non-empty base is non-empty and not "0". */
  lemma CandidateTruthy(base: string, k: nat)
    requires Truthy(base)
    ensures Truthy(Candidate(base, k))
  {
    if k != 0 {
      assert |Candidate(base, k)| >= 2;
    }
  }

  /** `slug` is the first attempt not taken. */
  ghost predicate IsFirstFree(base: string, taken: set<string>, slug: string) {
    exists k: nat :: slug == Candidate(base, k) && slug !in taken &&
      forall j: nat :: j < k ==> Candidate(base, j) in taken
  }

  /** An attempt that is free after k taken ones is the first free one. */
  lemma FirstFreeAt(base: string, taken: set<string>, k: nat)
    requires Candidate(base, k) !in taken
    requires forall j: nat :: j < k ==> Candidate(base, j) in taken
    ensures IsFirstFree(base, taken, Candidate(base, k))
  {
  }

  /** The first free attempt is unique. */
  lemma FirstFreeIsUnique(base: string, taken: set<string>, a: string, b: string)
    requires IsFirstFree(base, taken, a) && IsFirstFree(base, taken, b)
    ensures a == b
  {
    var ka: nat :| a == Candidate(base, ka) && a !in taken && forall j: nat :: j < ka ==> Candidate(base, j) in taken;
    var kb: nat :| b == Candidate(base, kb) && b !in taken && forall j: nat :: j < kb ==> Candidate(base, j) in taken;
    assert !(ka < kb) && !(kb < ka);
  }

  /** The attempts made before the k-th. */
  ghost function Below(base: string, k: nat): set<string> {
    if k == 0 then {} else Below(base, k - 1) + {Candidate(base, k - 1)}
  }

  lemma {:induction false} BelowAllTaken(base: string, k: nat, taken: set<string>)
    requires forall j: nat :: j < k ==> Candidate(base, j) in taken
    ensures Below(base, k) <= taken
  {
    if k > 0 {
      BelowAllTaken(base, k - 1, taken);
    }
  }

  lemma {:induction false} NotYetTried(base: string, k: nat, m: nat)
    requires m >= k
    ensures Candidate(base, m) !in Below(base, k)
  {
    if k > 0 {
      NotYetTried(base, k - 1, m);
      if Candidate(base, m) == Candidate(base, k - 1) {
        CandidateInjective(base, m, k - 1);
      }
    }
  }

  /** The first free attempt at a truthy base is truthy. */
  lemma FirstFreeTruthy(base: string, taken: set<string>, slug: string)
    requires Truthy(base) && IsFirstFree(base, taken, slug)
    ensures Truthy(slug)
  {
    var k: nat :| slug == Candidate(base, k) && slug !in taken && forall j: nat :: j < k ==> Candidate(base, j) in taken;
    CandidateTruthy(base, k);
  }

  /** Every attempt before the k-th is taken. */
  ghost predicate TakenBelow(base: string, k: nat, taken: set<string>) {
    forall j: nat :: j < k ==> Candidate(base, j) in taken
  }

  lemma TakenOneMore(base: string, k: nat, taken: set<string>)
    requires TakenBelow(base, k, taken) && Candidate(base, k) in taken
    ensures TakenBelow(base, k + 1, taken)
  {
  }

  /** Each taken attempt leaves fewer taken slugs to try. */
  lemma FewerLeft(base: string, k: nat, taken: set<string>)
    requires forall j: nat :: j < k ==> Candidate(base, j) in taken
    requires Candidate(base, k) in taken
    ensures |taken - Below(base, k + 1)| < |taken - Below(base, k)|
  {
    NotYetTried(base, k, k);
    BelowAllTaken(base, k, taken);
    var slug := Candidate(base, k);
    assert Below(base, k + 1) == Below(base, k) + {slug};
    assert taken - Below(base, k + 1) == (taken - Below(base, k)) - {slug};
  }

  /** The `while (Post::where('slug', $slug)->exists())` loop: append `-1`,
      `-2`, … to the base until the slug is free. */
  method FirstFreeSlug(base: string, taken: set<string>) returns (slug: string)
    ensures IsFirstFree(base, taken, slug)
    ensures slug !in taken
  {
    slug := base;
    var count: nat := 1;
    ghost var k: nat := 0;
    while slug in taken
      invariant count == k + 1
      invariant slug == Candidate(base, k)
      invariant TakenBelow(base, k, taken)
      decreases |taken - Below(base, k)|
    {
      FewerLeft(base, k, taken);
      TakenOneMore(base, k, taken);
      slug := Candidate(base, count);
      count := count + 1;
      k := k + 1;
    }
    FirstFreeAt(base, taken, k);
  }
}
