/**
 * The HTML views: the post list by category or tag, the root approved
 * comments of a post page, comment submission, and search.
 */
module Views {
  import opened Wrappers
  import opened Seqs
  import opened Text
  import opened Models
  import Store

  datatype ViewError =
    | NotFound    // `get_object_or_404` or `get_object` finds nothing
    | InvalidForm // the comment form does not validate; the page is shown again

  /** A URL or query argument that is present and non-empty: Python's truthiness of a string. */
  predicate Given(arg: Option<string>) {
    arg.Some? && arg.value != ""
  }

  /** `queryset.filter(category=...)`. */
  function InCategory(posts: seq<PostRow>, category: int): (r: seq<PostRow>)
    ensures forall i :: 0 <= i < |r| ==> r[i].category == Some(category) && r[i] in posts
    ensures forall p :: p in posts && p.category == Some(category) ==> p in r
    ensures IsSubsequence(r, posts)
    ensures NoDuplicates(posts) ==> NoDuplicates(r)
  {
    FilterIsSubsequence(posts, (p: PostRow) => p.category == Some(category));
    FilterNoDuplicates(posts, (p: PostRow) => p.category == Some(category));
    Filter(posts, (p: PostRow) => p.category == Some(category))
  }

  /** `queryset.filter(tags=...)`. */
  function WithTag(posts: seq<PostRow>, tag: int): (r: seq<PostRow>)
    ensures forall i :: 0 <= i < |r| ==> tag in r[i].tags && r[i] in posts
    ensures forall p :: p in posts && tag in p.tags ==> p in r
    ensures IsSubsequence(r, posts)
    ensures NoDuplicates(posts) ==> NoDuplicates(r)
  {
    FilterIsSubsequence(posts, (p: PostRow) => tag in p.tags);
    FilterNoDuplicates(posts, (p: PostRow) => tag in p.tags);
    Filter(posts, (p: PostRow) => tag in p.tags)
  }

  /**
   * `PostListView.get_queryset`: the published posts, narrowed to the
   * category and then the tag named by the URL; an unknown slug is a 404.
   * Categories and tags are found through their unique slug index.
   */
  function PostList(published: seq<PostRow>, categorySlug: Option<string>, tagSlug: Option<string>,
                    categoryBySlug: map<string, int>, tagBySlug: map<string, int>): (r: Result<seq<PostRow>, ViewError>)
    ensures r.Err? <==> ((Given(categorySlug) && categorySlug.value !in categoryBySlug)
                         || (Given(tagSlug) && tagSlug.value !in tagBySlug))
    ensures r.Err? ==> r.error == NotFound
    ensures !Given(categorySlug) && !Given(tagSlug) ==> r == Ok(published)
    ensures r.Ok? ==> IsSubsequence(r.value, published)
    ensures r.Ok? && NoDuplicates(published) ==> NoDuplicates(r.value)
    ensures r.Ok? && Given(categorySlug) ==>
      forall i :: 0 <= i < |r.value| ==> r.value[i].category == Some(categoryBySlug[categorySlug.value])
    ensures r.Ok? && Given(tagSlug) ==>
      forall i :: 0 <= i < |r.value| ==> tagBySlug[tagSlug.value] in r.value[i].tags
    ensures r.Ok? ==> forall i :: 0 <= i < |r.value| ==> r.value[i] in published
    ensures r.Ok? ==> forall p :: (p in published
                                   && (Given(categorySlug) ==> p.category == Some(categoryBySlug[categorySlug.value]))
                                   && (Given(tagSlug) ==> tagBySlug[tagSlug.value] in p.tags))
                                  ==> p in r.value
  {
    if Given(categorySlug) && categorySlug.value !in categoryBySlug then Err(NotFound)
    else
      var byCategory := if Given(categorySlug) then InCategory(published, categoryBySlug[categorySlug.value]) else published;
      if Given(tagSlug) && tagSlug.value !in tagBySlug then Err(NotFound)
      else if Given(tagSlug) then
        var byTag := WithTag(byCategory, tagBySlug[tagSlug.value]);
        if Given(categorySlug) then
          SubsequenceTransitive(byTag, byCategory, published);
          Ok(byTag)
        else
          Ok(byTag)
      else if Given(categorySlug) then
        Ok(byCategory)
      else
        SubsequenceReflexive(published);
        Ok(byCategory)
  }

  /** `PostDetailView.get_context_data`: the post's approved comments that are not replies. */
  function RootApprovedComments(rows: map<int, CommentRow>, post: int): (r: map<int, CommentRow>)
    ensures forall id :: id in r <==> id in rows && rows[id].post == post && rows[id].approved && rows[id].parent.None?
    ensures forall id :: id in r ==> r[id] == rows[id]
  {
    map id | id in rows && rows[id].post == post && rows[id].approved && rows[id].parent.None? :: rows[id]
  }

  /** The four fields of the comment form, as cleaned by the form. */
  datatype CommentForm = CommentForm(authorName: string, authorEmail: string, authorWebsite: string, content: string)

  /** The null character, which no form text field accepts. */
  const NullChar: char := '\0'

  /**
   * `form.is_valid()` for the comment form: name and content required, the
   * model's length limits, no null character in any field, a valid email and
   * an optional valid URL. Email and URL syntax are Django validators, passed
   * in as `validEmail` and `validUrl`.
   */
  predicate FormIsValid(form: CommentForm, validEmail: string -> bool, validUrl: string -> bool) {
    && form.authorName != "" && |form.authorName| <= 100 && NullChar !in form.authorName
    && form.authorEmail != "" && |form.authorEmail| <= 254 && NullChar !in form.authorEmail
    && validEmail(form.authorEmail)
    && |form.authorWebsite| <= 200 && NullChar !in form.authorWebsite
    && (form.authorWebsite == "" || validUrl(form.authorWebsite))
    && form.content != "" && NullChar !in form.content
  }

  /**
   * `PostDetailView.post`: a valid submission becomes a new comment on the
   * viewed post, pending moderation and always a root; anything else leaves
   * the comments table as it was.
   */
  method SubmitComment(comments: Store.Table<CommentRow>, posts: set<int>, pk: int, form: CommentForm,
                       validEmail: string -> bool, validUrl: string -> bool) returns (r: Result<int, ViewError>)
    requires comments.Valid()
    modifies comments
    ensures comments.Valid()
    ensures pk !in posts ==> r == Err(NotFound)
    ensures pk in posts && !FormIsValid(form, validEmail, validUrl) ==> r == Err(InvalidForm)
    ensures r.Err? ==> comments.rows == old(comments.rows)
    ensures pk in posts && FormIsValid(form, validEmail, validUrl) ==> r.Ok?
    ensures r.Ok? ==> r.value !in old(comments.rows) && comments.rows == old(comments.rows)[r.value :=
      CommentRow(pk, form.authorName, form.authorEmail, form.authorWebsite, form.content,
                 None, "", false, false, None, 0)]
    ensures WellFormedTree(old(comments.rows)) ==> WellFormedTree(comments.rows)
  {
    if pk !in posts {
      return Err(NotFound);
    }
    if !FormIsValid(form, validEmail, validUrl) {
      return Err(InvalidForm);
    }
    var comment := new Comment(form.authorName, form.authorEmail, form.authorWebsite, form.content);
    comment.post := Some(pk);
    var outcome := comment.Save(comments, posts);
    if WellFormedTree(old(comments.rows)) {
      InsertKeepsTree(old(comments.rows), comment.pk.value, comment.AsRow());
    }
    r := Ok(comment.pk.value);
  }

  // ------------------------------------------------------------------ search

  predicate TitleOrContentMatches(p: PostRow, query: string) {
    IContains(p.title, query) || IContains(p.content, query)
  }

  predicate TagNameMatches(tagNames: map<int, string>, t: int, query: string) {
    t in tagNames && IContains(tagNames[t], query)
  }

  /** The search condition: the query in the title, the content or a tag name, up to case. */
  predicate SearchMatches(p: PostRow, tagNames: map<int, string>, query: string) {
    TitleOrContentMatches(p, query) || exists t :: t in p.tags && TagNameMatches(tagNames, t, query)
  }

  /**
   * How many rows of the left outer join of the posts with their tags the
   * search condition keeps for post `p`: one per tag when the title or
   * content matches, else one per matching tag; one row with no tag for an
   * untagged post.
   */
  function JoinHits(p: PostRow, tagNames: map<int, string>, query: string): (n: nat)
    ensures n > 0 <==> SearchMatches(p, tagNames, query)
  {
    if p.tags == {} then (if TitleOrContentMatches(p, query) then 1 else 0)
    else
      var kept := set t | t in p.tags && (TitleOrContentMatches(p, query) || TagNameMatches(tagNames, t, query));
      JoinHitsPositive(p, tagNames, query, kept);
      |kept|
  }

  lemma JoinHitsPositive(p: PostRow, tagNames: map<int, string>, query: string, kept: set<int>)
    requires p.tags != {}
    requires kept == set t | t in p.tags && (TitleOrContentMatches(p, query) || TagNameMatches(tagNames, t, query))
    ensures |kept| > 0 <==> SearchMatches(p, tagNames, query)
  {
    if TitleOrContentMatches(p, query) {
      var t := SomeElement(p.tags);
      assert t in kept;
    } else if SearchMatches(p, tagNames, query) {
      var t :| t in p.tags && TagNameMatches(tagNames, t, query);
      assert t in kept;
    }
  }

  /** The joined rows the search condition keeps, post by post, before `distinct`. */
  function JoinRows(posts: seq<PostRow>, tagNames: map<int, string>, query: string): (rows: seq<PostRow>)
    ensures forall x :: x in rows ==> x in posts && SearchMatches(x, tagNames, query)
    ensures forall x :: x in posts && SearchMatches(x, tagNames, query) ==> x in rows
    decreases |posts|
  {
    if posts == [] then []
    else
      var last := posts[|posts| - 1];
      assert posts == posts[..|posts| - 1] + [last];
      var hits := JoinHits(last, tagNames, query);
      assert hits > 0 ==> Repeat(last, hits)[0] == last;
      JoinRows(posts[..|posts| - 1], tagNames, query) + Repeat(last, hits)
  }

  /**
   * `PostSearchView.get_queryset`: without a query the published posts;
   * with one, the joined rows that match, made distinct.
   */
  function PostSearch(published: seq<PostRow>, query: Option<string>, tagNames: map<int, string>): (r: seq<PostRow>)
    ensures !Given(query) ==> r == published
    ensures Given(query) ==> NoDuplicates(r)
    ensures Given(query) ==> forall i :: 0 <= i < |r| ==> r[i] in published && SearchMatches(r[i], tagNames, query.value)
    ensures Given(query) ==> forall p :: p in published && SearchMatches(p, tagNames, query.value) ==> p in r
  {
    if !Given(query) then published
    else Dedup(JoinRows(published, tagNames, query.value))
  }

  /** On distinct posts, joining, filtering and `distinct` select exactly the matching posts, in order. */
  lemma {:induction false} DistinctJoinIsFilter(posts: seq<PostRow>, tagNames: map<int, string>, query: string,
                                                keep: PostRow -> bool)
    requires NoDuplicates(posts)
    requires forall p :: keep(p) == SearchMatches(p, tagNames, query)
    ensures Dedup(JoinRows(posts, tagNames, query)) == Filter(posts, keep)
    decreases |posts|
  {
    if posts != [] {
      var init, last := posts[..|posts| - 1], posts[|posts| - 1];
      assert posts == init + [last];
      assert NoDuplicates(init);
      DistinctJoinIsFilter(init, tagNames, query, keep);
      DedupRepeat(JoinRows(init, tagNames, query), last, JoinHits(last, tagNames, query));
      assert last !in init;
    }
  }

  /** Search results keep the order of the published posts. */
  lemma SearchKeepsOrder(published: seq<PostRow>, query: Option<string>, tagNames: map<int, string>)
    requires NoDuplicates(published)
    ensures IsSubsequence(PostSearch(published, query, tagNames), published)
  {
    if Given(query) {
      var keep := (p: PostRow) => SearchMatches(p, tagNames, query.value);
      DistinctJoinIsFilter(published, tagNames, query.value, keep);
      FilterIsSubsequence(published, keep);
    } else {
      SubsequenceReflexive(published);
    }
  }
}
