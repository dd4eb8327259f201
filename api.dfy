/**
 * The REST API: which posts, comments and subscriptions each caller may
 * list, and the like toggle over the likes table.
 */
module Api {
  import opened Wrappers
  import opened Seqs
  import opened Models
  import Store

  /** The user behind a request. */
  datatype Requester = Anonymous | Authenticated(user: int, email: string)

  datatype ApiError =
    | NotAuthenticated // the `IsAuthenticated` permission refuses the request
    | NotFound         // `get_object` finds no post with that key

  datatype LikeAction = Liked | Unliked

  /** The body of the like response: the action taken and the live like count. */
  datatype LikeResponse = LikeResponse(action: LikeAction, likesCount: nat)

  predicate IsPublishedStatus(p: PostRow) {
    p.status == Published
  }

  /** `PostViewSet.get_queryset`: anonymous callers see published-status posts only, with no date check. */
  function PostQueryset(requester: Requester, posts: seq<PostRow>): (r: seq<PostRow>)
    ensures requester.Authenticated? ==> r == posts
    ensures requester.Anonymous? ==> forall i :: 0 <= i < |r| ==> r[i].status == Published && r[i] in posts
    ensures requester.Anonymous? ==> forall p :: p in posts && p.status == Published ==> p in r
    ensures IsSubsequence(r, posts)
  {
    if requester.Anonymous? then
      FilterIsSubsequence(posts, IsPublishedStatus);
      Filter(posts, IsPublishedStatus)
    else
      SubsequenceReflexive(posts);
      posts
  }

  /** `CommentViewSet.get_queryset`: the approved comments. */
  function CommentQueryset(rows: map<int, CommentRow>): (r: map<int, CommentRow>)
    ensures forall id :: id in r <==> id in rows && rows[id].approved
    ensures forall id :: id in r ==> r[id] == rows[id]
  {
    map id | id in rows && rows[id].approved :: rows[id]
  }

  /** `SubscriptionViewSet.get_queryset`: a signed-in user's subscriptions under their own email; nothing for anyone else. */
  function SubscriptionQueryset(requester: Requester, rows: map<int, SubscriptionRow>): (r: map<int, SubscriptionRow>)
    ensures requester.Anonymous? ==> r == map[]
    ensures requester.Authenticated? ==> forall id :: id in r <==> id in rows && rows[id].email == requester.email
    ensures forall id :: id in r ==> id in rows && r[id] == rows[id]
  {
    match requester
    case Anonymous => map[]
    case Authenticated(_, email) => map id | id in rows && rows[id].email == email :: rows[id]
  }

  // ------------------------------------------------------------------ likes

  /** The `(post, user)` pair a like row records. */
  function PairOf(l: LikeRow): (int, int) {
    (l.post, l.user)
  }

  /** The set of `(post, user)` pairs that have a like row. */
  function Pairs(rows: map<int, LikeRow>): set<(int, int)> {
    set id | id in rows :: PairOf(rows[id])
  }

  /** The `unique_together = ['post', 'user']` constraint. */
  predicate UniquePairs(rows: map<int, LikeRow>) {
    forall i, j :: i in rows && j in rows && PairOf(rows[i]) == PairOf(rows[j]) ==> i == j
  }

  /** The keys of the like rows of `post`: `post.likes`. */
  function LikesOf(rows: map<int, LikeRow>, post: int): set<int> {
    set id | id in rows && rows[id].post == post
  }

  /** `post.likes.count()`. */
  function LikeCount(rows: map<int, LikeRow>, post: int): nat {
    |LikesOf(rows, post)|
  }

  /** The pair set after a toggle: present pairs leave, absent ones arrive. */
  function Toggled(pairs: set<(int, int)>, pair: (int, int)): (r: set<(int, int)>)
    ensures pair in r <==> pair !in pairs
    ensures forall q :: q != pair ==> (q in r <==> q in pairs)
  {
    if pair in pairs then pairs - {pair} else pairs + {pair}
  }

  /** Toggling twice gives back the pairs one started from. */
  lemma ToggledTwice(pairs: set<(int, int)>, pair: (int, int))
    ensures Toggled(Toggled(pairs, pair), pair) == pairs
  {
  }

  /** A new row adds its pair to the pair set and one to its post's count. */
  lemma {:induction false} InsertLike(rows: map<int, LikeRow>, id: int, l: LikeRow)
    requires id !in rows
    ensures Pairs(rows[id := l]) == Pairs(rows) + {PairOf(l)}
    ensures LikeCount(rows[id := l], l.post) == LikeCount(rows, l.post) + 1
    ensures forall post :: post != l.post ==> LikeCount(rows[id := l], post) == LikeCount(rows, post)
  {
    var after := rows[id := l];
    assert LikesOf(after, l.post) == LikesOf(rows, l.post) + {id};
    forall post | post != l.post
      ensures LikeCount(after, post) == LikeCount(rows, post)
    {
      assert LikesOf(after, post) == LikesOf(rows, post);
    }
    forall q | q in Pairs(after)
      ensures q in Pairs(rows) + {PairOf(l)}
    {
      var k :| k in after && PairOf(after[k]) == q;
      if k != id {
        assert PairOf(rows[k]) == q;
      }
    }
    forall q | q in Pairs(rows)
      ensures q in Pairs(after)
    {
      var k :| k in rows && PairOf(rows[k]) == q;
      assert after[k] == rows[k];
    }
    assert PairOf(after[id]) in Pairs(after);
  }

  /** Deleting the one row of a pair removes that pair and one from its post's count. */
  lemma {:induction false} DeleteLike(rows: map<int, LikeRow>, id: int)
    requires UniquePairs(rows) && id in rows
    ensures Pairs(rows - {id}) == Pairs(rows) - {PairOf(rows[id])}
    ensures LikeCount(rows - {id}, rows[id].post) == LikeCount(rows, rows[id].post) - 1
    ensures forall post :: post != rows[id].post ==> LikeCount(rows - {id}, post) == LikeCount(rows, post)
  {
    var after := rows - {id};
    var post := rows[id].post;
    assert LikesOf(rows, post) == LikesOf(after, post) + {id};
    forall other | other != post
      ensures LikeCount(after, other) == LikeCount(rows, other)
    {
      assert LikesOf(after, other) == LikesOf(rows, other);
    }
    forall q | q in Pairs(rows) - {PairOf(rows[id])}
      ensures q in Pairs(after)
    {
      var k :| k in rows && PairOf(rows[k]) == q;
      assert k != id;
      assert PairOf(after[k]) == q;
    }
    forall q | q in Pairs(after)
      ensures q in Pairs(rows) - {PairOf(rows[id])}
    {
      var k :| k in after && PairOf(after[k]) == q;
      assert k in rows && k != id;
    }
  }

  /**
   * `PostViewSet.like`: for a signed-in caller and an existing post, delete
   * the caller's like of the post when there is one, otherwise create it,
   * and report which and the post's live like count.
   */
  method Like(likes: Store.Table<LikeRow>, posts: set<int>, requester: Requester, pk: int)
    returns (r: Result<LikeResponse, ApiError>)
    requires likes.Valid() && UniquePairs(likes.rows)
    modifies likes
    ensures likes.Valid() && UniquePairs(likes.rows)
    ensures requester.Anonymous? ==> r == Err(NotAuthenticated)
    ensures requester.Authenticated? && pk !in posts ==> r == Err(NotFound)
    ensures r.Err? ==> likes.rows == old(likes.rows)
    ensures requester.Authenticated? && pk in posts ==> r.Ok?
    ensures r.Ok? ==> requester.Authenticated?
    ensures r.Ok? ==> (
      var pair := (pk, requester.user);
      && (r.value.action == Liked <==> pair !in Pairs(old(likes.rows)))
      && Pairs(likes.rows) == Toggled(Pairs(old(likes.rows)), pair)
      && r.value.likesCount == LikeCount(likes.rows, pk)
      && r.value.likesCount == (if r.value.action == Liked then LikeCount(old(likes.rows), pk) + 1
                                else LikeCount(old(likes.rows), pk) - 1))
    ensures r.Ok? ==> forall id :: id in old(likes.rows) && PairOf(old(likes.rows)[id]) != (pk, requester.user) ==>
      id in likes.rows && likes.rows[id] == old(likes.rows)[id]
  {
    if requester.Anonymous? {
      return Err(NotAuthenticated);
    }
    if pk !in posts {
      return Err(NotFound);
    }
    var pair := (pk, requester.user);
    var action;
    if exists id :: id in likes.rows && PairOf(likes.rows[id]) == pair {
      var id :| id in likes.rows && PairOf(likes.rows[id]) == pair;
      DeleteLike(likes.rows, id);
      likes.Delete(id);
      action := Unliked;
    } else {
      var row := LikeRow(pk, requester.user, None);
      assert pair !in Pairs(likes.rows);
      var id := likes.Insert(row);
      InsertLike(old(likes.rows), id, row);
      action := Liked;
    }
    r := Ok(LikeResponse(action, LikeCount(likes.rows, pk)));
  }

  /** Two likes in a row by the same caller on the same post restore the likes and the count. */
  method LikeTwice(likes: Store.Table<LikeRow>, posts: set<int>, requester: Requester, pk: int)
    returns (first: Result<LikeResponse, ApiError>, second: Result<LikeResponse, ApiError>)
    requires likes.Valid() && UniquePairs(likes.rows)
    requires requester.Authenticated? && pk in posts
    modifies likes
    ensures first.Ok? && second.Ok? && first.value.action != second.value.action
    ensures Pairs(likes.rows) == Pairs(old(likes.rows))
    ensures LikeCount(likes.rows, pk) == LikeCount(old(likes.rows), pk)
  {
    first := Like(likes, posts, requester, pk);
    second := Like(likes, posts, requester, pk);
    ToggledTwice(Pairs(old(likes.rows)), (pk, requester.user));
  }
}
