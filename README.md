# Blog posts app, modelled in Dafny

This project models the `posts` app of a Django blog: categories, tags,
posts, threaded comments, likes and e-mail subscriptions. It covers:

- what each model's `save()` derives before it writes: the slug, the reading time, the excerpt and the comment depth;
- the `is_published` gate;
- the `increment_views` counter, written with `update_fields`;
- the upload path of a post image;
- the two comment-moderation actions of the admin;
- the three API querysets and the like toggle;
- the list, detail, comment-submission and search views;
- the RSS feed;
- the `reading_time` template filter.

Modules, one per source file, plus four support modules:

| module | file | models |
|---|---|---|
| `Models` | `models.dfy` | `posts/models.py`: `Category` and `Tag` classes whose `Save` derives their slug; `Post`, whose `Save` derives its slug, reading time and excerpt and writes its row to the posts table; `Comment`, whose `Save` sets its depth and writes its row to the comments table; `post_image_path`; `is_published`; `increment_views` |
| `Admin` | `admin.dfy` | `posts/admin.py`: `approve_comments` and `reject_comments` as in-place updates of the comments table |
| `Api` | `api.dfy` | `posts/api.py`: the three `get_queryset` filters and the `like` action over a likes table |
| `Views` | `views.dfy` | `posts/views.py`: the post list, the detail page's comments, comment submission and search |
| `Feeds` | `feeds.dfy` | `posts/feeds.py`: feed items and item descriptions |
| `BlogFilters` | `blog_filters.dfy` | `posts/templatetags/blog_filters.py`: `reading_time` |
| `Text` | `text.dfy` | Python's `str.split()`, `split('.')[-1]`, `str(int)`, `os.path.join`, and SQL `icontains` |
| `Seqs` | `seqs.dfy` | querysets as sequences: filter, `distinct`, slicing, subsequences |
| `Store` | `store.dfy` | a database table: a map from primary key to row, plus the next key |
| `Wrappers` | `wrappers.dfy` | `Option`, `Result`, `Outcome` |

Things the program reaches but that are not part of it are parameters:

- Django's `slugify` is a function argument `slugify: string -> string`.
- Email and URL validation is `validEmail` and `validUrl`.
- `timezone.now()` is an integer `now`.
- The rows of `Post.published` are a sequence `published`.
- The slug lookups of `get_object_or_404`, which hit unique columns, are maps from slug to key.

The failures the model covers return an `Err`/`Fail` value and write
nothing. They are:

- a 404;
- an invalid form;
- an `update_fields` save that finds no row;
- the unique post slug (posts/models.py:85);
- a comment saved without its post;
- a comment whose parent is not stored;
- the foreign keys of a post's author and category (posts/models.py:88-89);
- the foreign key of a comment's post (posts/models.py:137).

The keys of the users, categories and posts tables are passed in as
sets. The database checks uniqueness before foreign keys, so a save that
breaks both fails on the slug.

The code does not check `allow_comments` when a comment is submitted. It
does not check that a reply's parent is on the same post, and it puts no
bound on comment depth. It adds no duplicate-subscription check of its
own: only the unique email column (posts/models.py:167) refuses a second
subscription for an email, whether or not the first is active. It has no
confirmation-token logic. The model follows the code in each of these.

## Model

| member | source | states |
|---|---|---|
| Models.DerivedSlug | posts/models.py:115-116 | an empty slug becomes `slugify(source)`; a non-empty slug is kept |
| Models.DerivedSlugIdempotent | posts/models.py:115-116 | deriving the slug a second time changes nothing |
| Models.Category.constructor | posts/models.py:18-25 | a new category is active, at order 0, with the given name, slug, description and parent |
| Models.Category.Save | posts/models.py:38-41 | after saving, the slug is the derived slug of the old slug and the name |
| Models.Tag.constructor | posts/models.py:44-48 | a new tag has the default colour `#6c757d` |
| Models.Tag.Save | posts/models.py:61-64 | after saving, the slug is the derived slug of the old slug and the name |
| Models.KeyText | posts/models.py:69 | a missing key prints as `None`, a key as its decimal numeral (`IntToString`); either way non-empty and without a dot |
| Models.PostImagePath | posts/models.py:67-70 | the path is `posts/images/` followed by the name `slugify(title)_pk.ext`, where `ext` is the filename after its last dot; a name starting with a slash replaces the directory, as `os.path.join` does; either way the path keeps that extension |
| Models.ImagePathKeepsExtension | posts/models.py:68-70 | whether or not the join keeps the directory, the text after the path's last dot is the extension |
| Models.AutoExcerpt | posts/models.py:122 | content of at most 500 characters is kept whole; longer content gives exactly 500 characters: its first 497, then `...`; never empty for non-empty content |
| Models.FilledExcerpt | posts/models.py:121-122 | a non-empty excerpt is never overwritten; empty content leaves an empty excerpt empty; otherwise the excerpt is the automatic one |
| Models.FilledExcerptIdempotent | posts/models.py:121-122 | filling an excerpt twice is the same as filling it once |
| Models.WriteColumns | posts/models.py:133 | an update with `update_fields` never changes the key or the tags of the stored row; the slug column takes the instance's slug exactly when it is named |
| Models.WriteNoColumns | posts/models.py:133 | an update naming no column leaves the stored row as it was |
| Models.WriteAllColumns | posts/models.py:133 | an update naming every column stores the instance's values, under the stored key and with the stored tags |
| Models.WriteColumnsTwice | posts/models.py:133 | two updates from the same instance equal one update of the union of their columns |
| Models.PutKeepsUniqueSlugs | posts/models.py:85 | storing a row whose slug no other stored post has keeps the slug column unique |
| Models.WriteViewsCountOnly | posts/models.py:133 | updating only `views_count` leaves every other stored column as it was |
| Models.SlugTaken | posts/models.py:85 | a stored post other than the one being saved (under its own key, if it has one) already has the slug |
| Models.UniqueSlugs | posts/models.py:85 | the `unique=True` slug column: no two stored posts have the same slug |
| Models.Post.constructor | posts/models.py:84-101 | a new post is a draft, dated `now`, open to comments, with zero counters and blank slug and excerpt |
| Models.Post.IsPublished | posts/models.py:126-129 | published exactly when the status is published and `pub_date <= now`; never for drafts or archived posts |
| Models.Post.PublishedStaysPublished | posts/models.py:127-129 | a post published at `now` is still published at any later instant, with no write |
| Models.Post.Derive | posts/models.py:114-122 | after the pre-save step: the slug is derived, the reading time is the `reading_time` filter of the content, and the excerpt is filled |
| Models.Post.Write | posts/models.py:124 | a plain save fails exactly when another stored post has the slug (the unique slug column, models.py:85) or a foreign key names no stored row, and otherwise inserts the row under a fresh key or overwrites it, keeping the stored tags; a save with `update_fields` writes only those columns of a stored row, fails with no key, no stored row, or a taken slug when the slug is named, and writes nothing for an empty list; an author or category key that names no stored user or category (posts/models.py:88-89) fails, in a plain save always and with `update_fields` when that column is named, after the slug check; a failure writes nothing; unique slugs stay unique |
| Models.Post.KeysStored | posts/models.py:88-89 | the written author and category keys are null or name a stored user or category |
| Models.Post.Save | posts/models.py:114-124 | deriving and then writing, with both steps' results; the unique-slug failure is checked against the derived slug, and the author and category foreign keys against the stored users and categories |
| Models.Post.IncrementViews | posts/models.py:131-133 | the view count rises by exactly one; on success, only `views_count` of the stored row changes; a post that is not stored gives an error and no write; the slug is not written, so no slug conflict can fail it |
| Models.Ancestors | posts/models.py:148-150 | in a well-formed comment tree, the parent chain has one entry per level of depth, ends at a root and never returns to its start |
| Models.InsertKeepsTree | posts/models.py:160-163 | a root at depth 0, or a reply one below its stored parent, keeps the tree well formed |
| Models.Comment.constructor | posts/models.py:145-150 | a new comment is unapproved, not spam, a root at depth 0 |
| Models.Comment.Save | posts/models.py:160-163 | a reply's depth becomes its parent's plus one and a root keeps its depth; then the row is stored under a fresh or the existing key; a missing parent, an unset post, or a post key that names no stored post (the foreign key of posts/models.py:137) fails and writes nothing |
| Text.IsSpace | posts/templatetags/blog_filters.py:7 | the characters `str.split()` treats as whitespace: tab through carriage return, the separators U+001C to U+001F, space, U+0085, U+00A0, U+1680, U+2000 to U+200A, U+2028, U+2029, U+202F, U+205F and U+3000 |
| Text.Split | posts/templatetags/blog_filters.py:7 | every word of `str.split()` is non-empty and has no whitespace |
| Text.SplitOfWord | posts/templatetags/blog_filters.py:7 | a non-empty run of non-whitespace splits into exactly itself |
| Text.WordLengthBeforeSpace | posts/templatetags/blog_filters.py:7 | a word followed by whitespace ends where it ends without what follows |
| Text.SplitSkipsSpace | posts/templatetags/blog_filters.py:7 | leading whitespace contributes no word |
| Text.SplitTakesWord | posts/templatetags/blog_filters.py:7 | text starting with a word that whitespace follows splits into that word first |
| Text.SplitBeforeSpace | posts/templatetags/blog_filters.py:7 | text followed by text that starts with whitespace splits into the words of the first, then those of the second |
| Text.SplitOfJoin | posts/templatetags/blog_filters.py:7 | two texts joined by a space split into the words of the first, then those of the second, in order |
| Text.WordCount | posts/templatetags/blog_filters.py:7 | the number of words is the number of places where a word starts after whitespace or at the start |
| Text.WordCountOfJoin | posts/templatetags/blog_filters.py:7 | joining two texts with a space adds their word counts |
| Text.AfterLast | posts/models.py:68 | the result has no separator and is a suffix of the input |
| Text.AfterLastWithoutSeparator | posts/models.py:68 | with no separator in the input, the result is the whole input |
| Text.AfterLastAfterSeparator | posts/models.py:68 | with a separator in the input, a separator comes just before the result, which is therefore the text after the last one |
| Text.AfterLastOfJoin | posts/models.py:68-69 | the extension of `stem + "." + ext` is `ext` when `ext` has no dot |
| Text.IntToString | posts/models.py:69 | `str(i)`: a minus sign exactly for negative `i`, then the canonical digits of the magnitude of `i`: their decimal value is the magnitude, and there is no leading zero (`0` is `"0"`) |
| Text.NatToStringValue | posts/models.py:69 | reading back the digits of `str(n)` as a decimal numeral gives `n` |
| Text.JoinPath | posts/models.py:70 | POSIX `os.path.join` of two parts: an absolute second part replaces the first; otherwise the two parts are joined, with a slash added only when the first does not already end in one |
| Text.Fold | posts/views.py:84-86 | the query and the field folded letter by letter: `A` to `Z` become `a` to `z`, every other character is kept |
| Text.Contains | posts/views.py:84-86 | the needle occurs as a contiguous piece of the text; the empty needle occurs in every text |
| Text.IContains | posts/views.py:84-86 | `__icontains`: the folded needle occurs as a contiguous piece of the folded text |
| Seqs.Filter | posts/api.py:21 | the filtered queryset holds exactly the rows that pass the test |
| Seqs.FilterIsSubsequence | posts/api.py:21 | filtering keeps the order of the rows |
| Seqs.FilterNoDuplicates | posts/views.py:21 | filtering a queryset without duplicates gives one without duplicates |
| Seqs.Dedup | posts/views.py:87 | `distinct` leaves no duplicates and the same elements |
| Seqs.DedupRepeat | posts/views.py:87 | `distinct` after appending copies of one row adds that row once, and only if it is new |
| Seqs.Take | posts/feeds.py:12 | slicing `[:n]` gives the first `min(n, length)` elements |
| Store.Table.Insert | posts/models.py:124 | a new row goes in under a fresh key; other rows are unchanged |
| Store.Table.Put | posts/models.py:124 | the row under the key is replaced, or added; other rows are unchanged |
| Store.Table.Delete | posts/api.py:35 | the row under the key is removed; other rows are unchanged |
| BlogFilters.ReadingTime | posts/templatetags/blog_filters.py:6-8 | at least one minute; `words // 200` from 200 words on; one minute below 400 words |
| BlogFilters.ReadingTimeMonotone | posts/templatetags/blog_filters.py:8 | more words never give a shorter reading time |
| BlogFilters.ReadingTimeOfAppend | posts/templatetags/blog_filters.py:8 | appending any text, with or without a separating space, never shortens the reading time |
| Admin.Approve | posts/admin.py:54-55 | every selected comment becomes approved and not spam; other fields and unselected comments are unchanged |
| Admin.Reject | posts/admin.py:59-60 | every selected comment becomes unapproved and keeps its spam flag; other fields and unselected comments are unchanged |
| Admin.ApproveComments | posts/admin.py:54-55 | the comments table becomes `Approve` of the old table and selection |
| Admin.RejectComments | posts/admin.py:59-60 | the comments table becomes `Reject` of the old table and selection |
| Admin.ApproveIdempotent | posts/admin.py:55 | approving the same selection twice is approving it once |
| Admin.RejectIdempotent | posts/admin.py:60 | rejecting the same selection twice is rejecting it once |
| Admin.ApproveAfterReject | posts/admin.py:54-60 | approving after rejecting the same selection is approving alone |
| Admin.RejectAfterApprove | posts/admin.py:54-60 | rejecting after approving leaves the selection unapproved and not spam |
| Admin.ModerationKeepsTree | posts/admin.py:54-60 | neither action breaks the comment tree |
| Api.PostQueryset | posts/api.py:18-22 | an anonymous caller gets exactly the published-status posts, with no date check, in order; a signed-in caller gets every post |
| Api.CommentQueryset | posts/api.py:57-58 | exactly the approved comments, unchanged |
| Api.SubscriptionQueryset | posts/api.py:63-67 | a signed-in caller gets exactly the subscriptions under their own email; an anonymous caller gets none |
| Api.Toggled | posts/api.py:32-38 | a toggle removes a present pair and adds an absent one, and no other pair changes |
| Api.ToggledTwice | posts/api.py:32-38 | toggling twice restores the pair set |
| Api.InsertLike | posts/api.py:36-38 | a new like row adds its pair and one to its post's count, and no other post's count changes |
| Api.DeleteLike | posts/api.py:35-36 | under the unique pair constraint, deleting a like removes its pair and one from its post's count, and no other post's count changes |
| Api.LikeCount | posts/api.py:40 | `post.likes.count()`: the number of like rows whose post is this one |
| Api.Like | posts/api.py:29-40 | an anonymous caller or a missing post gives an error and no write; otherwise it reports `liked` exactly when the pair had no like; the pair set is toggled; the reported count is the live count, one up or one down; other likes are unchanged; pairs stay unique |
| Api.LikeTwice | posts/api.py:29-40 | two likes in a row give opposite actions and restore the pair set and the count |
| Views.InCategory | posts/views.py:21 | exactly the posts of that category, in order, without duplicates when the input has none |
| Views.WithTag | posts/views.py:26 | exactly the posts carrying that tag, in order, without duplicates when the input has none |
| Views.PostList | posts/views.py:15-28 | an unknown category or tag slug is a 404; otherwise exactly the published posts of the category and the tag named, in order, and without duplicates when the published posts have none; with neither named, all published posts |
| Views.RootApprovedComments | posts/views.py:50-52 | exactly the post's approved comments that have no parent |
| Views.FormIsValid | posts/models.py:138-141 | `form.is_valid()` for the comment form (posts/forms.py:4-7, posts/views.py:60), from the model fields it is built on: a non-empty name of at most 100 characters; a non-empty email of at most 254 characters that the email validator accepts; a website that is empty or, within 200 characters, accepted by the URL validator; non-empty content; no null character in any of the four |
| Views.SubmitComment | posts/views.py:56-69 | a missing post or an invalid form writes nothing (invalid: a missing name, email or content, a field over its length limit, a null character in any field, or a bad email or URL); a valid form adds, under a fresh key, an unapproved, non-spam root comment on the viewed post; the comment tree stays well formed |
| Views.SearchMatches | posts/views.py:83-86 | the disjunction of the three `Q` lookups: the title or the content contains the query up to case, or some tag of the post has a name that does |
| Views.JoinHits | posts/views.py:83-86 | a post yields some joined rows exactly when its title, content or a tag name contains the query, up to case |
| Views.JoinHitsPositive | posts/views.py:83-86 | for a tagged post, the matching tag rows are non-empty exactly when the post matches |
| Views.JoinRows | posts/views.py:83-86 | the joined rows hold exactly the matching posts |
| Views.PostSearch | posts/views.py:78-89 | no query or an empty one gives the published posts; otherwise exactly the matching published posts, without duplicates |
| Views.DistinctJoinIsFilter | posts/views.py:83-87 | on distinct posts, join, filter and `distinct` together equal a plain filter by the search condition |
| Views.SearchKeepsOrder | posts/views.py:78-89 | search results keep the order of the published posts |
| Feeds.Items | posts/feeds.py:11-12 | at most 10 items, a prefix of the published posts; all of them when there are 10 or fewer |
| Feeds.ItemDescription | posts/feeds.py:17-18 | the excerpt when it is non-empty, else the first `min(200, length)` characters of the content |
| Feeds.SavedPostDescription | posts/feeds.py:17-18 | a post saved with a blank excerpt is described by its automatic excerpt, which is empty only when the content is |

## Left out

- Models.Category.Save, Models.Tag.Save: the `Category` and `Tag` tables are not modelled, so these model only the slug derivation; their database write, the unique-constraint errors on their slug (and the tag name) and the foreign key of a category's parent are outside the model. The unique post slug is modelled, in `Models.Post.Write`.
- `slugify`, email validation and URL validation are Django library code; they are parameters.
- The stripping of surrounding whitespace by form fields is not modelled; the form fields are taken as already cleaned.
- `icontains` folds ASCII letters only, as SQLite's `LIKE` does; full Unicode case folding is not modelled.
- `PositiveIntegerField` upper bounds: counters are unbounded naturals.
- `created_at`/`updated_at` timestamps, `ordering` of querysets, pagination, `select_related`/`prefetch_related`: persistence and presentation details.
- Comment querysets are maps, so their ordering is not modelled.
- `get_absolute_url`, `__str__`, redirects and success messages: URL routing and presentation.
- `Post.published` is not defined in the source; its rows are taken as the parameter `published`.
- Image storage and upload handling: only the path function is modelled.
- `os.path.join` is the POSIX variant.
- The create, update and delete actions of the API viewsets are Django REST framework library code. They are not modelled, and neither are the constraints those writes meet, such as the unique subscription email (posts/models.py:167).
- Signal handlers, serializers, forms other than the comment form, URL configuration and `apps.py` carry no logic that is modelled here.
- The M2M `tags` table of a post is a set of tag keys in the post row; `Post.Write` keeps the stored set, since `save()` does not write it.
- Comment.Save: the parent is looked up by key in the comments table rather than through Django's cached related instance.
- Concurrent like toggles and transaction isolation: the model is sequential, and the unique `(post, user)` constraint is a precondition and a postcondition of `Api.Like`.
- The `is_active` flag of categories in list contexts, and the `about` and `contact` views: they render templates only.
