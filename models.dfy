/**
 * The blog's models: the fields each save derives (slug, reading time,
 * excerpt, comment depth), the publication gate, the view counter, the
 * upload path of a post image, and the rows the other modules query.
 * Django's `slugify` is a foreign function and is passed in as `slugify`.
 */
module Models {
  import opened Wrappers
  import opened Text
  import BlogFilters
  import Store

  datatype Status = Draft | Published | Archived

  /** Why a save raised instead of writing. */
  datatype SaveError =
    | NoPrimaryKey       // `save(update_fields=...)` on an instance that was never inserted
    | NoRowUpdated       // `save(update_fields=...)` whose row is not in the table
    | DuplicateSlug      // another stored post has the slug: the unique constraint fails
    | ParentDoesNotExist // `self.parent` names a comment that is not stored
    | PostNotSet         // a comment saved without its post: the NOT NULL constraint fails
    | RelatedRowMissing  // a foreign key names no stored row: the REFERENCES constraint fails

  // ---------------------------------------------------------------- slugs

  /** The slug a save leaves: an empty slug is derived from `source`, any other is kept. */
  function DerivedSlug(slug: string, source: string, slugify: string -> string): (r: string)
    ensures slug != "" ==> r == slug
    ensures slug == "" ==> r == slugify(source)
  {
    if slug == "" then slugify(source) else slug
  }

  /** Saving again never changes a derived slug. */
  lemma DerivedSlugIdempotent(slug: string, source: string, slugify: string -> string)
    ensures DerivedSlug(DerivedSlug(slug, source, slugify), source, slugify) == DerivedSlug(slug, source, slugify)
  {
  }

  class Category {
    var name: string
    var slug: string
    var description: string
    var isActive: bool
    var order: nat
    var parent: Option<int>

    /** `Category(name=..., slug=..., description=..., parent=...)`: active, at order 0. */
    constructor (name: string, slug: string, description: string, parent: Option<int>)
      ensures this.name == name && this.slug == slug && this.description == description
      ensures this.parent == parent && isActive && order == 0
    {
      this.name := name;
      this.slug := slug;
      this.description := description;
      this.parent := parent;
      isActive := true;
      order := 0;
    }

    /** The pre-save step: an empty slug becomes `slugify(name)`. */
    method Save(slugify: string -> string)
      modifies this`slug
      ensures slug == DerivedSlug(old(slug), name, slugify)
    {
      if slug == "" {
        slug := slugify(name);
      }
    }
  }

  const DefaultTagColor: string := "#6c757d"

  class Tag {
    var name: string
    var slug: string
    var description: string
    var color: string

    /** `Tag(name=..., slug=..., description=...)`: grey by default. */
    constructor (name: string, slug: string, description: string)
      ensures this.name == name && this.slug == slug && this.description == description
      ensures color == DefaultTagColor
    {
      this.name := name;
      this.slug := slug;
      this.description := description;
      color := DefaultTagColor;
    }

    /** The pre-save step: an empty slug becomes `slugify(name)`. */
    method Save(slugify: string -> string)
      modifies this`slug
      ensures slug == DerivedSlug(old(slug), name, slugify)
    {
      if slug == "" {
        slug := slugify(name);
      }
    }
  }

  // ---------------------------------------------------------- image paths

  const ImageDirectory: string := "posts/images"

  /** `str(instance.pk)`: a post that was never saved has no key and prints as `None`. */
  function KeyText(pk: Option<int>): (r: string)
    ensures r != [] && '.' !in r
    ensures pk.None? ==> r == "None"
    ensures pk.Some? ==> r == IntToString(pk.value)
  {
    match pk
    case None => "None"
    case Some(k) => IntToString(k)
  }

  /**
   * `post_image_path`: the upload path of a post's image, named after the
   * slugified title and the key and keeping the uploaded file's extension.
   */
  function PostImagePath(title: string, pk: Option<int>, filename: string, slugify: string -> string): (path: string)
    ensures var name := slugify(title) + "_" + KeyText(pk) + "." + AfterLast(filename, '.');
      && (name[0] != '/' ==> path == ImageDirectory + "/" + name)
      && (name[0] == '/' ==> path == name)
    ensures AfterLast(path, '.') == AfterLast(filename, '.')
  {
    var ext := AfterLast(filename, '.');
    var stem := slugify(title) + "_" + KeyText(pk);
    ImagePathKeepsExtension(stem, ext);
    JoinPath(ImageDirectory, stem + "." + ext)
  }

  /**
   * The image name is joined under the image directory unless it starts
   * with a slash, and either way the path ends in the extension it was given.
   */
  lemma ImagePathKeepsExtension(stem: string, ext: string)
    requires stem != [] && '.' !in ext
    ensures stem[0] != '/' ==> JoinPath(ImageDirectory, stem + "." + ext) == ImageDirectory + "/" + (stem + "." + ext)
    ensures stem[0] == '/' ==> JoinPath(ImageDirectory, stem + "." + ext) == stem + "." + ext
    ensures AfterLast(JoinPath(ImageDirectory, stem + "." + ext), '.') == ext
  {
    var name := stem + "." + ext;
    assert name == stem + ['.'] + ext;
    assert name[0] == stem[0];
    assert ImageDirectory[|ImageDirectory| - 1] == 's';
    if stem[0] == '/' {
      AfterLastOfJoin(stem, '.', ext);
    } else {
      assert ImageDirectory + "/" + name == (ImageDirectory + "/" + stem) + ['.'] + ext;
      AfterLastOfJoin(ImageDirectory + "/" + stem, '.', ext);
    }
  }

  // ------------------------------------------------------------- excerpts

  const ExcerptLimit: nat := 500
  const ExcerptCut: nat := 497

  /** The automatic excerpt: the whole content when short, else a 497-character cut and an ellipsis. */
  function AutoExcerpt(content: string): (e: string)
    ensures |e| <= ExcerptLimit
    ensures |content| <= ExcerptLimit ==> e == content
    ensures |content| > ExcerptLimit ==> |e| == ExcerptLimit && e[..ExcerptCut] == content[..ExcerptCut] && e[ExcerptCut..] == "..."
    ensures content != "" ==> e != ""
  {
    if |content| > ExcerptLimit then content[..ExcerptCut] + "..." else content
  }

  /** The excerpt a save leaves: only a blank excerpt of a non-empty post is filled. */
  function FilledExcerpt(excerpt: string, content: string): (e: string)
    ensures excerpt != "" ==> e == excerpt
    ensures excerpt == "" && content == "" ==> e == ""
    ensures excerpt == "" && content != "" ==> e == AutoExcerpt(content) && 0 < |e| <= ExcerptLimit
  {
    if excerpt == "" && content != "" then AutoExcerpt(content) else excerpt
  }

  /** Saving again never changes an excerpt once it has been filled. */
  lemma FilledExcerptIdempotent(excerpt: string, content: string)
    ensures FilledExcerpt(FilledExcerpt(excerpt, content), content) == FilledExcerpt(excerpt, content)
  {
  }

  // ---------------------------------------------------------------- posts

  /** A row of the posts table, with the post's tags (kept by Django in a join table). */
  datatype PostRow = PostRow(
    id: int,
    title: string,
    slug: string,
    content: string,
    excerpt: string,
    author: Option<int>,
    category: Option<int>,
    tags: set<int>,
    imageAlt: string,
    pubDate: int,
    status: Status,
    isFeatured: bool,
    allowComments: bool,
    viewsCount: nat,
    likesCount: nat,
    readingTime: nat)

  /** The columns a `save(update_fields=...)` may name. */
  datatype PostField =
    | TitleField | SlugField | ContentField | ExcerptField | AuthorField | CategoryField
    | ImageAltField | PubDateField | StatusField | IsFeaturedField | AllowCommentsField
    | ViewsCountField | LikesCountField | ReadingTimeField

  /** The value a column takes after an `UPDATE` of `fields`. */
  function Pick<T>(f: PostField, fields: set<PostField>, current: T, stored: T): T {
    if f in fields then current else stored
  }

  /** The stored row after an `UPDATE` that writes the columns in `fields` from `current`. */
  function WriteColumns(stored: PostRow, current: PostRow, fields: set<PostField>): (r: PostRow)
    ensures r.id == stored.id && r.tags == stored.tags
    ensures r.slug == if SlugField in fields then current.slug else stored.slug
  {
    PostRow(
      stored.id,
      Pick(TitleField, fields, current.title, stored.title),
      Pick(SlugField, fields, current.slug, stored.slug),
      Pick(ContentField, fields, current.content, stored.content),
      Pick(ExcerptField, fields, current.excerpt, stored.excerpt),
      Pick(AuthorField, fields, current.author, stored.author),
      Pick(CategoryField, fields, current.category, stored.category),
      stored.tags,
      Pick(ImageAltField, fields, current.imageAlt, stored.imageAlt),
      Pick(PubDateField, fields, current.pubDate, stored.pubDate),
      Pick(StatusField, fields, current.status, stored.status),
      Pick(IsFeaturedField, fields, current.isFeatured, stored.isFeatured),
      Pick(AllowCommentsField, fields, current.allowComments, stored.allowComments),
      Pick(ViewsCountField, fields, current.viewsCount, stored.viewsCount),
      Pick(LikesCountField, fields, current.likesCount, stored.likesCount),
      Pick(ReadingTimeField, fields, current.readingTime, stored.readingTime))
  }

  const AllPostFields: set<PostField> := {
    TitleField, SlugField, ContentField, ExcerptField, AuthorField, CategoryField, ImageAltField,
    PubDateField, StatusField, IsFeaturedField, AllowCommentsField, ViewsCountField, LikesCountField, ReadingTimeField}

  /** Writing no column leaves the stored row as it was. */
  lemma WriteNoColumns(stored: PostRow, current: PostRow)
    ensures WriteColumns(stored, current, {}) == stored
  {
  }

  /** Writing every column stores the instance, under the stored key and with the stored tags. */
  lemma WriteAllColumns(stored: PostRow, current: PostRow)
    ensures WriteColumns(stored, current, AllPostFields) == current.(id := stored.id, tags := stored.tags)
  {
  }

  /** Two updates from the same instance are one update of the columns of both. */
  lemma WriteColumnsTwice(stored: PostRow, current: PostRow, first: set<PostField>, second: set<PostField>)
    ensures WriteColumns(WriteColumns(stored, current, first), current, second) == WriteColumns(stored, current, first + second)
  {
  }

  /** Writing only `views_count` leaves every other stored column as it was. */
  lemma WriteViewsCountOnly(stored: PostRow, current: PostRow)
    ensures WriteColumns(stored, current, {ViewsCountField}) == stored.(viewsCount := current.viewsCount)
  {
  }

  /** The tags stored for the post with key `id`; none for a post not yet stored. */
  function StoredTags(rows: map<int, PostRow>, id: int): set<int> {
    if id in rows then rows[id].tags else {}
  }

  /** A stored post other than the one keyed `pk` already has `slug`. */
  predicate SlugTaken(rows: map<int, PostRow>, slug: string, pk: Option<int>) {
    exists id :: id in rows && pk != Some(id) && rows[id].slug == slug
  }

  /** The unique constraint on the slug column of the posts table. */
  predicate UniqueSlugs(rows: map<int, PostRow>) {
    forall i, j :: i in rows && j in rows && rows[i].slug == rows[j].slug ==> i == j
  }

  /** Storing a row whose slug no other row has keeps the slugs unique. */
  lemma PutKeepsUniqueSlugs(rows: map<int, PostRow>, id: int, r: PostRow)
    requires UniqueSlugs(rows) && !SlugTaken(rows, r.slug, Some(id))
    ensures UniqueSlugs(rows[id := r])
  {
  }

  /** A post instance in memory; `Save` derives its computed fields and writes it to the posts table. */
  class Post {
    var pk: Option<int>
    var title: string
    var slug: string
    var content: string
    var excerpt: string
    var author: Option<int>
    var category: Option<int>
    var imageAlt: string
    var pubDate: int
    var status: Status
    var isFeatured: bool
    var allowComments: bool
    var viewsCount: nat
    var likesCount: nat
    var readingTime: nat

    /** `Post(title=..., content=...)` with every other field at its default; `now` stands for `timezone.now()`. */
    constructor (title: string, content: string, now: int)
      ensures pk == None && this.title == title && this.content == content
      ensures slug == "" && excerpt == "" && author == None && category == None && imageAlt == ""
      ensures pubDate == now && status == Draft && !isFeatured && allowComments
      ensures viewsCount == 0 && likesCount == 0 && readingTime == 0
    {
      pk := None;
      this.title := title;
      this.content := content;
      slug := "";
      excerpt := "";
      author := None;
      category := None;
      imageAlt := "";
      pubDate := now;
      status := Draft;
      isFeatured := false;
      allowComments := true;
      viewsCount := 0;
      likesCount := 0;
      readingTime := 0;
    }

    /** The row this instance writes under key `id`, carrying the stored `tags`. */
    function AsRow(id: int, tags: set<int>): PostRow
      reads this
    {
      PostRow(id, title, slug, content, excerpt, author, category, tags, imageAlt,
              pubDate, status, isFeatured, allowComments, viewsCount, likesCount, readingTime)
    }

    /**
     * The foreign keys among the written `fields` name stored rows: the
     * author a stored user, the category a stored category. A null key
     * names nothing and passes.
     */
    predicate KeysStored(fields: set<PostField>, users: set<int>, categories: set<int>)
      reads this
    {
      && (AuthorField in fields && author.Some? ==> author.value in users)
      && (CategoryField in fields && category.Some? ==> category.value in categories)
    }

    /** `is_published` at instant `now`: published status and a publication date already reached. */
    predicate IsPublished(now: int)
      reads this
      ensures IsPublished(now) ==> status == Published
      ensures status == Published ==> (IsPublished(now) <==> pubDate <= now)
    {
      status == Published && pubDate <= now
    }

    /** A published post stays published as time passes, with no write to it. */
    lemma PublishedStaysPublished(now: int, later: int)
      requires now <= later && IsPublished(now)
      ensures IsPublished(later)
    {
    }

    /** The pre-save step of `save()`: slug, reading time and excerpt. */
    method Derive(slugify: string -> string)
      modifies this`slug, this`readingTime, this`excerpt
      ensures slug == DerivedSlug(old(slug), title, slugify)
      ensures readingTime == BlogFilters.ReadingTime(content)
      ensures excerpt == FilledExcerpt(old(excerpt), content)
    {
      if slug == "" {
        slug := slugify(title);
      }
      var words := |Split(content)|;
      readingTime := Max(1, words / 200);
      if excerpt == "" && content != "" {
        excerpt := if |content| > ExcerptLimit then content[..ExcerptCut] + "..." else content;
      }
    }

    /**
     * The write of `save(update_fields=updateFields)`. A plain save inserts
     * the row, or overwrites it under its key, keeping the stored tags. With
     * `updateFields` it updates only the named columns of a stored row, and
     * writes nothing when it names none. A slug another stored post has fails
     * the unique constraint; a written author or category that names no
     * stored row (`users`, `categories`: the keys of those tables) fails its
     * foreign-key constraint, which the database checks after the unique one.
     * A failed write changes nothing.
     */
    method Write(db: Store.Table<PostRow>, users: set<int>, categories: set<int>, updateFields: Option<set<PostField>>)
      returns (outcome: Outcome<SaveError>)
      requires db.Valid()
      modifies this`pk, db
      ensures db.Valid()
      ensures UniqueSlugs(old(db.rows)) ==> UniqueSlugs(db.rows)
      ensures old(pk).Some? ==> pk == old(pk)
      ensures outcome.Fail? ==> pk == old(pk) && db.rows == old(db.rows)
      ensures updateFields.None? ==>
        (outcome.Fail? <==> SlugTaken(old(db.rows), slug, old(pk)) || !KeysStored(AllPostFields, users, categories))
      ensures updateFields.None? && outcome.Fail? ==>
        outcome.error == if SlugTaken(old(db.rows), slug, old(pk)) then DuplicateSlug else RelatedRowMissing
      ensures updateFields.None? && outcome.Pass? ==> pk.Some? && (old(pk).None? ==> pk.value !in old(db.rows))
      ensures updateFields.None? && outcome.Pass? ==>
        db.rows == old(db.rows)[pk.value := AsRow(pk.value, StoredTags(old(db.rows), pk.value))]
      ensures updateFields.Some? ==> pk == old(pk)
      ensures updateFields == Some({}) ==> outcome == Pass && db.rows == old(db.rows)
      ensures updateFields.Some? && updateFields.value != {} && pk.None? ==> outcome == Fail(NoPrimaryKey)
      ensures updateFields.Some? && updateFields.value != {} && pk.Some? && pk.value !in old(db.rows) ==> outcome == Fail(NoRowUpdated)
      ensures updateFields.Some? && updateFields.value != {} && pk.Some? && pk.value in old(db.rows) ==>
        if SlugField in updateFields.value && SlugTaken(old(db.rows), slug, pk) then outcome == Fail(DuplicateSlug)
        else if !KeysStored(updateFields.value, users, categories) then outcome == Fail(RelatedRowMissing)
        else outcome == Pass && db.rows == old(db.rows)[pk.value := WriteColumns(old(db.rows)[pk.value], AsRow(pk.value, {}), updateFields.value)]
    {
      match updateFields
      case None =>
        if SlugTaken(db.rows, slug, pk) {
          return Fail(DuplicateSlug);
        }
        if !KeysStored(AllPostFields, users, categories) {
          return Fail(RelatedRowMissing);
        }
        if pk.None? {
          var id := db.Insert(AsRow(0, {}));
          pk := Some(id);
          db.Put(id, AsRow(id, {}));
        } else {
          db.Put(pk.value, AsRow(pk.value, StoredTags(db.rows, pk.value)));
        }
        if UniqueSlugs(old(db.rows)) {
          PutKeepsUniqueSlugs(old(db.rows), pk.value, AsRow(pk.value, StoredTags(old(db.rows), pk.value)));
        }
        outcome := Pass;
      case Some(fields) =>
        if fields == {} {
          outcome := Pass;
        } else if pk.None? {
          outcome := Fail(NoPrimaryKey);
        } else if pk.value !in db.rows {
          outcome := Fail(NoRowUpdated);
        } else if SlugField in fields && SlugTaken(db.rows, slug, pk) {
          outcome := Fail(DuplicateSlug);
        } else if !KeysStored(fields, users, categories) {
          outcome := Fail(RelatedRowMissing);
        } else {
          var k := pk.value;
          var row := WriteColumns(db.rows[k], AsRow(k, {}), fields);
          if UniqueSlugs(db.rows) {
            PutKeepsUniqueSlugs(db.rows, k, row);
          }
          db.Put(k, row);
          outcome := Pass;
        }
    }

    /** `save(update_fields=updateFields)`: the pre-save step, then the write. */
    method Save(slugify: string -> string, db: Store.Table<PostRow>, users: set<int>, categories: set<int>,
                updateFields: Option<set<PostField>>)
      returns (outcome: Outcome<SaveError>)
      requires db.Valid()
      modifies this`slug, this`readingTime, this`excerpt, this`pk, db
      ensures db.Valid()
      ensures slug == DerivedSlug(old(slug), title, slugify)
      ensures readingTime == BlogFilters.ReadingTime(content)
      ensures excerpt == FilledExcerpt(old(excerpt), content)
      ensures UniqueSlugs(old(db.rows)) ==> UniqueSlugs(db.rows)
      ensures old(pk).Some? ==> pk == old(pk)
      ensures outcome.Fail? ==> pk == old(pk) && db.rows == old(db.rows)
      ensures updateFields.None? ==>
        (outcome.Fail? <==> SlugTaken(old(db.rows), slug, old(pk)) || !KeysStored(AllPostFields, users, categories))
      ensures updateFields.None? && outcome.Fail? ==>
        outcome.error == if SlugTaken(old(db.rows), slug, old(pk)) then DuplicateSlug else RelatedRowMissing
      ensures updateFields.None? && outcome.Pass? ==> pk.Some? && (old(pk).None? ==> pk.value !in old(db.rows))
      ensures updateFields.None? && outcome.Pass? ==>
        db.rows == old(db.rows)[pk.value := AsRow(pk.value, StoredTags(old(db.rows), pk.value))]
      ensures updateFields.Some? ==> pk == old(pk)
      ensures updateFields == Some({}) ==> outcome == Pass && db.rows == old(db.rows)
      ensures updateFields.Some? && updateFields.value != {} && pk.None? ==> outcome == Fail(NoPrimaryKey)
      ensures updateFields.Some? && updateFields.value != {} && pk.Some? && pk.value !in old(db.rows) ==> outcome == Fail(NoRowUpdated)
      ensures updateFields.Some? && updateFields.value != {} && pk.Some? && pk.value in old(db.rows) ==>
        if SlugField in updateFields.value && SlugTaken(old(db.rows), slug, pk) then outcome == Fail(DuplicateSlug)
        else if !KeysStored(updateFields.value, users, categories) then outcome == Fail(RelatedRowMissing)
        else outcome == Pass && db.rows == old(db.rows)[pk.value := WriteColumns(old(db.rows)[pk.value], AsRow(pk.value, {}), updateFields.value)]
    {
      Derive(slugify);
      outcome := Write(db, users, categories, updateFields);
    }

    /** `increment_views`: one more view, persisted through `save(update_fields=['views_count'])`. */
    method IncrementViews(slugify: string -> string, db: Store.Table<PostRow>) returns (outcome: Outcome<SaveError>)
      requires db.Valid()
      modifies this`viewsCount, this`slug, this`readingTime, this`excerpt, this`pk, db
      ensures db.Valid()
      ensures viewsCount == old(viewsCount) + 1 && pk == old(pk)
      ensures slug == DerivedSlug(old(slug), title, slugify)
      ensures readingTime == BlogFilters.ReadingTime(content)
      ensures excerpt == FilledExcerpt(old(excerpt), content)
      ensures UniqueSlugs(old(db.rows)) ==> UniqueSlugs(db.rows)
      ensures outcome.Pass? <==> pk.Some? && pk.value in old(db.rows)
      ensures outcome.Pass? ==> db.rows == old(db.rows)[pk.value := old(db.rows)[pk.value].(viewsCount := viewsCount)]
      ensures outcome.Fail? ==> db.rows == old(db.rows)
    {
      viewsCount := viewsCount + 1;
      // The update names no foreign-key column, so no user or category key is looked up.
      outcome := Save(slugify, db, {}, {}, Some({ViewsCountField}));
      if outcome.Pass? {
        WriteViewsCountOnly(old(db.rows)[pk.value], AsRow(pk.value, {}));
      }
    }
  }

  // ------------------------------------------------------------- comments

  /** A row of the comments table. */
  datatype CommentRow = CommentRow(
    post: int,
    authorName: string,
    authorEmail: string,
    authorWebsite: string,
    content: string,
    ipAddress: Option<string>,
    userAgent: string,
    approved: bool,
    isSpam: bool,
    parent: Option<int>,
    depth: nat)

  /**
   * Every reply sits one level below a stored parent and every root at
   * level 0: the shape saving comments one at a time builds.
   */
  predicate WellFormedTree(rows: map<int, CommentRow>) {
    forall id :: id in rows ==>
      match rows[id].parent
      case None => rows[id].depth == 0
      case Some(p) => p in rows && rows[id].depth == rows[p].depth + 1
  }

  /**
   * The chain of ancestors of comment `id`, parent first. In a well-formed
   * tree it ends at a root, has one entry per level of depth, and never
   * comes back to `id`: the parent links have no cycle.
   */
  function Ancestors(rows: map<int, CommentRow>, id: int): (chain: seq<int>)
    requires WellFormedTree(rows) && id in rows
    ensures |chain| == rows[id].depth
    ensures forall i :: 0 <= i < |chain| ==> chain[i] in rows && rows[chain[i]].depth == rows[id].depth - 1 - i
    ensures chain == [] <==> rows[id].parent.None?
    ensures chain != [] ==> rows[id].parent == Some(chain[0]) && rows[chain[|chain| - 1]].parent.None?
    ensures id !in chain
    decreases rows[id].depth
  {
    match rows[id].parent
    case None => []
    case Some(p) =>
      var rest := Ancestors(rows, p);
      assert forall i :: 0 <= i < |rest| ==> rest[i] != id;
      [p] + rest
  }

  /** Inserting a root at level 0, or a reply one level below its stored parent, keeps the tree well formed. */
  lemma InsertKeepsTree(rows: map<int, CommentRow>, id: int, c: CommentRow)
    requires WellFormedTree(rows) && id !in rows
    requires c.parent.None? ==> c.depth == 0
    requires c.parent.Some? ==> c.parent.value in rows && c.depth == rows[c.parent.value].depth + 1
    ensures WellFormedTree(rows[id := c])
  {
  }

  /** A comment instance in memory; `Save` sets its depth from its parent and writes it to the comments table. */
  class Comment {
    var pk: Option<int>
    var post: Option<int>
    var authorName: string
    var authorEmail: string
    var authorWebsite: string
    var content: string
    var ipAddress: Option<string>
    var userAgent: string
    var approved: bool
    var isSpam: bool
    var parent: Option<int>
    var depth: nat

    /** A comment built from the four submitted fields: not yet approved, not spam, a root at depth 0. */
    constructor (authorName: string, authorEmail: string, authorWebsite: string, content: string)
      ensures pk == None && post == None
      ensures this.authorName == authorName && this.authorEmail == authorEmail
      ensures this.authorWebsite == authorWebsite && this.content == content
      ensures ipAddress == None && userAgent == ""
      ensures !approved && !isSpam && parent == None && depth == 0
    {
      pk := None;
      post := None;
      this.authorName := authorName;
      this.authorEmail := authorEmail;
      this.authorWebsite := authorWebsite;
      this.content := content;
      ipAddress := None;
      userAgent := "";
      approved := false;
      isSpam := false;
      parent := None;
      depth := 0;
    }

    function AsRow(): CommentRow
      requires post.Some?
      reads this
    {
      CommentRow(post.value, authorName, authorEmail, authorWebsite, content, ipAddress,
                 userAgent, approved, isSpam, parent, depth)
    }

    /** The parent, if any, is a stored comment. */
    predicate ParentIn(rows: map<int, CommentRow>)
      reads this
    {
      parent.None? || parent.value in rows
    }

    /**
     * `save()`: a reply takes its stored parent's depth plus one, a root
     * keeps its depth; then the row is inserted, or updated under `pk`. The
     * post must name one of the stored posts `posts`, or the foreign-key
     * constraint fails.
     */
    method Save(db: Store.Table<CommentRow>, posts: set<int>) returns (outcome: Outcome<SaveError>)
      requires db.Valid()
      modifies this`depth, this`pk, db
      ensures db.Valid()
      ensures !ParentIn(old(db.rows)) ==> outcome == Fail(ParentDoesNotExist) && depth == old(depth)
      ensures parent.Some? && parent.value in old(db.rows) ==> depth == old(db.rows)[parent.value].depth + 1
      ensures parent.None? ==> depth == old(depth)
      ensures ParentIn(old(db.rows)) && post.None? ==> outcome == Fail(PostNotSet)
      ensures outcome.Fail? ==> pk == old(pk) && db.rows == old(db.rows)
      ensures ParentIn(old(db.rows)) && post.Some? && post.value !in posts ==> outcome == Fail(RelatedRowMissing)
      ensures ParentIn(old(db.rows)) && post.Some? && post.value in posts ==> outcome == Pass && pk.Some?
      ensures outcome.Pass? ==> (old(pk).Some? ==> pk == old(pk)) && (old(pk).None? ==> pk.value !in old(db.rows))
      ensures outcome.Pass? ==> post.Some? && db.rows == old(db.rows)[pk.value := AsRow()]
    {
      if parent.Some? {
        if parent.value !in db.rows {
          return Fail(ParentDoesNotExist);
        }
        depth := db.rows[parent.value].depth + 1;
      }
      if post.None? {
        return Fail(PostNotSet);
      }
      if post.value !in posts {
        return Fail(RelatedRowMissing);
      }
      if pk.None? {
        var id := db.Insert(AsRow());
        pk := Some(id);
      } else {
        db.Put(pk.value, AsRow());
      }
      outcome := Pass;
    }
  }

  // ------------------------------------------------------ likes and mail

  /** A row of the likes table; `(post, user)` is unique across the table. */
  datatype LikeRow = LikeRow(post: int, user: int, ipAddress: Option<string>)

  /** A row of the subscriptions table. */
  datatype SubscriptionRow = SubscriptionRow(
    email: string,
    isActive: bool,
    confirmationToken: string,
    confirmedAt: Option<int>,
    ipAddress: Option<string>)
}
