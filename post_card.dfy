/** The post card's handlers: after the edit, delete, like or unlike request
    succeeds, the shared list of posts is rewritten in memory; when the
    request fails the list is left alone. */
module Cards {
  import opened Js
  import opened PostData

  /** The request a handler sends to the server before it touches the list. */
  datatype Request =
    | EditPost(id: Value, content: string)   // PATCH /posts/{id}, image null
    | DeletePost(id: Value)                  // DELETE /posts/{id}
    | LikePost(id: Value)                    // PUT /posts/{id}/like
    | UnlikePost(id: Value)                  // DELETE /posts/{id}/like

  /** The ids of a list of posts, in order. */
  function Ids(posts: seq<Post>): (r: seq<Value>)
    ensures |r| == |posts| && forall i | 0 <= i < |posts| :: r[i] == posts[i].id
  {
    Map(posts, (p: Post) => p.id)
  }

  // ---------------------------------------------------------------------
  // Editing
  // ---------------------------------------------------------------------

  function EditOne(id: Value, content: string): Post -> Post {
    (p: Post) => if p.id == id then p.(content := content) else p
  }

  /** `posts.map(p => p.id === id ? {...p, content} : p)`. */
  function EditPosts(posts: seq<Post>, id: Value, content: string): (r: seq<Post>)
    ensures |r| == |posts|
    ensures forall i | 0 <= i < |posts| ::
      r[i] == if posts[i].id == id then posts[i].(content := content) else posts[i]
  {
    Map(posts, EditOne(id, content))
  }

  /** An edit keeps the list's ids in order, touches only the content of the
      posts with the edited id, and leaves every like status as it was. */
  lemma EditKeepsEverythingButContent(posts: seq<Post>, id: Value, content: string, userId: Value)
    ensures Ids(EditPosts(posts, id, content)) == Ids(posts)
    ensures forall i | 0 <= i < |posts| ::
      var q := EditPosts(posts, id, content)[i];
      && q.likes == posts[i].likes && q.isLiked == posts[i].isLiked && q.fields == posts[i].fields
      && (posts[i].id == id ==> q.content == content)
      && (LikeStatusConsistent(posts[i], userId) ==> LikeStatusConsistent(q, userId))
  {
  }

  /** Saving the same edit twice gives the list that saving it once gives. */
  lemma EditIdempotent(posts: seq<Post>, id: Value, content: string)
    ensures EditPosts(EditPosts(posts, id, content), id, content) == EditPosts(posts, id, content)
  {
  }

  // ---------------------------------------------------------------------
  // Deleting
  // ---------------------------------------------------------------------

  function OtherThan(id: Value): Post -> bool {
    (p: Post) => p.id != id
  }

  /** `posts.filter(p => p.id !== id)`. */
  function DeletePosts(posts: seq<Post>, id: Value): (r: seq<Post>)
    ensures forall p :: p in r <==> p in posts && p.id != id
  {
    Filter(posts, OtherThan(id))
  }

  /** Deleting keeps the remaining posts in their relative order: it
      distributes over concatenation. */
  lemma DeleteKeepsOrder(a: seq<Post>, b: seq<Post>, id: Value)
    ensures DeletePosts(a + b, id) == DeletePosts(a, id) + DeletePosts(b, id)
  {
    FilterAppend(a, b, OtherThan(id));
  }

  function HasId(id: Value): Post -> bool {
    (p: Post) => p.id == id
  }

  /** Deleting shortens the list by exactly the number of posts with that id. */
  lemma DeleteCount(posts: seq<Post>, id: Value)
    ensures |DeletePosts(posts, id)| == |posts| - |Filter(posts, HasId(id))|
  {
    FilterPartition(posts, OtherThan(id));
    FilterCongruent(posts, x => !OtherThan(id)(x), HasId(id));
  }

  /** Deleting an id no post has changes nothing. */
  lemma DeleteAbsentId(posts: seq<Post>, id: Value)
    requires forall i | 0 <= i < |posts| :: posts[i].id != id
    ensures DeletePosts(posts, id) == posts
  {
    FilterKeepsAll(posts, OtherThan(id));
  }

  /** Deleting twice is deleting once. */
  lemma DeleteIdempotent(posts: seq<Post>, id: Value)
    ensures DeletePosts(DeletePosts(posts, id), id) == DeletePosts(posts, id)
  {
    FilterIdempotent(posts, OtherThan(id));
  }

  // ---------------------------------------------------------------------
  // Liking and unliking
  // ---------------------------------------------------------------------

  /** `{...p, isLiked: true, likes: [...p.likes, userId]}`. */
  function AddLike(p: Post, userId: Value): (q: Post)
    ensures q.likes == p.likes + [userId] && |q.likes| == |p.likes| + 1
    ensures q.isLiked && LikeStatusConsistent(q, userId)
    ensures q.id == p.id && q.content == p.content && q.fields == p.fields
  {
    var q := p.(isLiked := true, likes := p.likes + [userId]);
    assert q.likes[|p.likes|] == userId;
    q
  }

  function NotLikedBy(userId: Value): Value -> bool {
    like => !SameString(like, userId)
  }

  /** The card's own test `like !== currentUserId`. */
  function NotStrictlyEqual(userId: Value): Value -> bool {
    like => like != userId
  }

  /** `{...p, isLiked: false, likes: p.likes.filter(…)}`, keeping the likes
      whose string form differs from the user's (see RemoveLikeAsWritten). */
  function RemoveLike(p: Post, userId: Value): (q: Post)
    ensures forall like :: like in q.likes <==> like in p.likes && !SameString(like, userId)
    ensures userId !in q.likes
    ensures !q.isLiked && LikeStatusConsistent(q, userId)
    ensures q.id == p.id && q.content == p.content && q.fields == p.fields
  {
    p.(isLiked := false, likes := Filter(p.likes, NotLikedBy(userId)))
  }

  /** `p.likes.filter(userId => userId !== currentUserId)` as the card
      writes it: strict inequality, where the like status is derived by
      comparing string forms. */
  function RemoveLikeAsWritten(p: Post, userId: Value): (q: Post)
    ensures forall like :: like in q.likes <==> like in p.likes && like != userId
    ensures q.likes == Filter(p.likes, NotStrictlyEqual(userId))
    ensures !q.isLiked
    ensures q.id == p.id && q.content == p.content && q.fields == p.fields
  {
    p.(isLiked := false, likes := Filter(p.likes, NotStrictlyEqual(userId)))
  }

  function LikeOne(id: Value, userId: Value): Post -> Post {
    (p: Post) => if p.id == id then AddLike(p, userId) else p
  }

  function UnlikeOne(id: Value, userId: Value): Post -> Post {
    (p: Post) => if p.id == id then RemoveLike(p, userId) else p
  }

  /** The list after a successful like of the post with the given id. */
  function LikePosts(posts: seq<Post>, id: Value, userId: Value): (r: seq<Post>)
    ensures |r| == |posts| && Ids(r) == Ids(posts)
    ensures forall i | 0 <= i < |posts| && posts[i].id != id :: r[i] == posts[i]
    ensures forall i | 0 <= i < |posts| && posts[i].id == id ::
      r[i] == AddLike(posts[i], userId) && r[i].isLiked && r[i].likes == posts[i].likes + [userId]
  {
    Map(posts, LikeOne(id, userId))
  }

  /** The list after a successful unlike of the post with the given id. */
  function UnlikePosts(posts: seq<Post>, id: Value, userId: Value): (r: seq<Post>)
    ensures |r| == |posts| && Ids(r) == Ids(posts)
    ensures forall i | 0 <= i < |posts| && posts[i].id != id :: r[i] == posts[i]
    ensures forall i | 0 <= i < |posts| && posts[i].id == id ::
      r[i] == RemoveLike(posts[i], userId) && !r[i].isLiked && r[i].likes == Filter(posts[i].likes, NotLikedBy(userId))
  {
    Map(posts, UnlikeOne(id, userId))
  }

  /** The list after a successful unlike as the card writes it. */
  function UnlikePostsAsWritten(posts: seq<Post>, id: Value, userId: Value): (r: seq<Post>)
    ensures |r| == |posts| && Ids(r) == Ids(posts)
    ensures forall i | 0 <= i < |posts| && posts[i].id != id :: r[i] == posts[i]
    ensures forall i | 0 <= i < |posts| && posts[i].id == id ::
      r[i] == RemoveLikeAsWritten(posts[i], userId) && !r[i].isLiked
      && r[i].likes == Filter(posts[i].likes, NotStrictlyEqual(userId))
      && forall like :: like in r[i].likes <==> like in posts[i].likes && like != userId
  {
    Map(posts, (p: Post) => if p.id == id then RemoveLikeAsWritten(p, userId) else p)
  }

  /** The list-wide like status invariant: every post's `isLiked` agrees with
      its `likes` list. Both feeds establish it when they load. */
  predicate AllConsistent(posts: seq<Post>, userId: Value) {
    forall i | 0 <= i < |posts| :: LikeStatusConsistent(posts[i], userId)
  }

  /** Liking and unliking keep the like status invariant. */
  lemma LikeAndUnlikeKeepConsistency(posts: seq<Post>, id: Value, userId: Value)
    requires AllConsistent(posts, userId)
    ensures AllConsistent(LikePosts(posts, id, userId), userId)
    ensures AllConsistent(UnlikePosts(posts, id, userId), userId)
  {
    var liked, unliked := LikePosts(posts, id, userId), UnlikePosts(posts, id, userId);
    forall i | 0 <= i < |posts|
      ensures LikeStatusConsistent(liked[i], userId) && LikeStatusConsistent(unliked[i], userId)
    {
      if posts[i].id == id {
        assert liked[i] == AddLike(posts[i], userId);
        assert unliked[i] == RemoveLike(posts[i], userId);
      }
    }
  }

  /** Liking a post the user has not liked and then unliking it gives back
      the list exactly as it was. */
  lemma LikeThenUnlikeRestores(posts: seq<Post>, id: Value, userId: Value)
    requires forall i | 0 <= i < |posts| && posts[i].id == id ::
      !posts[i].isLiked && !IsLikedBy(posts[i].likes, userId)
    ensures UnlikePosts(LikePosts(posts, id, userId), id, userId) == posts
  {
    var liked := LikePosts(posts, id, userId);
    var back := UnlikePosts(liked, id, userId);
    forall i | 0 <= i < |posts| ensures back[i] == posts[i] {
      if posts[i].id == id {
        var p := posts[i];
        FilterAppend(p.likes, [userId], NotLikedBy(userId));
        assert forall k | 0 <= k < |p.likes| :: NotLikedBy(userId)(p.likes[k]);
        FilterKeepsAll(p.likes, NotLikedBy(userId));
        assert Filter([userId], NotLikedBy(userId)) == [];
        assert back[i].likes == p.likes;
      }
    }
  }

  /** The card's own round trip: liking a post whose likes do not hold the
      user id and then unliking it with the strict filter gives back the
      list exactly, every other like kept once and in order. */
  lemma LikeThenUnlikeAsWrittenRestores(posts: seq<Post>, id: Value, userId: Value)
    requires forall i | 0 <= i < |posts| && posts[i].id == id ::
      !posts[i].isLiked && userId !in posts[i].likes
    ensures UnlikePostsAsWritten(LikePosts(posts, id, userId), id, userId) == posts
  {
    var liked := LikePosts(posts, id, userId);
    var back := UnlikePostsAsWritten(liked, id, userId);
    forall i | 0 <= i < |posts| ensures back[i] == posts[i] {
      if posts[i].id == id {
        var p := posts[i];
        FilterAppend(p.likes, [userId], NotStrictlyEqual(userId));
        assert forall k | 0 <= k < |p.likes| :: NotStrictlyEqual(userId)(p.likes[k]);
        FilterKeepsAll(p.likes, NotStrictlyEqual(userId));
        assert Filter([userId], NotStrictlyEqual(userId)) == [];
        assert back[i].likes == p.likes;
      }
    }
  }

  /** Where the ids in a post's likes and the user id are of one kind (all
      numbers or all strings), the card's strict filter and the string-form
      filter agree. */
  lemma AsWrittenUnlikeAgreesForSameKindIds(p: Post, userId: Value)
    requires userId.Num? || userId.Text?
    requires forall i | 0 <= i < |p.likes| :: (p.likes[i].Num? && userId.Num?) || (p.likes[i].Text? && userId.Text?)
    ensures RemoveLikeAsWritten(p, userId) == RemoveLike(p, userId)
  {
    forall i | 0 <= i < |p.likes|
      ensures (p.likes[i] != userId) == NotLikedBy(userId)(p.likes[i])
    {
      SameStringSameKind(p.likes[i], userId);
    }
    FilterCongruent(p.likes, NotStrictlyEqual(userId), NotLikedBy(userId));
  }

  /** The card as written breaks the like status invariant: with the like
      5 (a number) and the current user "5" (a string) the post shows as
      liked; unliking it clears `isLiked` but keeps the like, so the count
      does not drop until the list is fetched again, and a second tap likes
      the post once more beside the stale like. */
  lemma AsWrittenUnlikeLeavesStaleLike()
    ensures
      var before := Post(Num(1), "hi", [Num(5)], true, map[]);
      var after := UnlikePostsAsWritten([before], Num(1), Text("5"))[0];
      && LikeStatusConsistent(before, Text("5"))
      && !after.isLiked && after.likes == [Num(5)]
      && !LikeStatusConsistent(after, Text("5"))
  {
    NumberAndStringIdsCollide();
    var before := Post(Num(1), "hi", [Num(5)], true, map[]);
    assert Filter([Num(5)], NotStrictlyEqual(Text("5"))) == [Num(5)];
    assert IsLikedBy([Num(5)], Text("5"));
  }

  // ---------------------------------------------------------------------
  // The card's state and handlers
  // ---------------------------------------------------------------------

  class PostCard {
    /** The card's props: its post and the current user's id. */
    const post: Post
    const currentUserId: Value
    /** The parent screen's list, replaced through `setPosts`. */
    var posts: seq<Post>
    var editContent: string
    var isEditModalVisible: bool

    constructor (post: Post, posts: seq<Post>, currentUserId: Value)
      ensures this.post == post && this.posts == posts && this.currentUserId == currentUserId
      ensures editContent == "" && !isEditModalVisible
    {
      this.post := post;
      this.posts := posts;
      this.currentUserId := currentUserId;
      editContent := "";
      isEditModalVisible := false;
    }

    /** Opens the edit dialog on the post's current text. */
    method HandleEdit(p: Post)
      modifies this`editContent, this`isEditModalVisible
      ensures editContent == p.content && isEditModalVisible
    {
      editContent := p.content;
      isEditModalVisible := true;
    }

    /** Closes the edit dialog without saving (its cancel button, or the
        system back action). */
    method CloseEditModal()
      modifies this`isEditModalVisible
      ensures !isEditModalVisible
    {
      isEditModalVisible := false;
    }

    /** Saves the edit dialog: blank text sends nothing; otherwise the
        trimmed text is sent and, once the request succeeds, written into
        every post with this card's id and the dialog is closed. */
    method SaveEdit(succeeded: bool) returns (request: Option<Request>)
      modifies this`posts, this`isEditModalVisible
      ensures Trim(editContent) == [] ==> request == None
      ensures Trim(editContent) != [] ==> request == Some(EditPost(post.id, Trim(editContent)))
      ensures Trim(editContent) != [] && succeeded ==>
        posts == EditPosts(old(posts), post.id, Trim(editContent)) && !isEditModalVisible
      ensures Trim(editContent) == [] || !succeeded ==>
        posts == old(posts) && isEditModalVisible == old(isEditModalVisible)
    {
      request := None;
      if editContent != [] && Trim(editContent) != [] {
        request := Some(EditPost(post.id, Trim(editContent)));
        if succeeded {
          posts := EditPosts(posts, post.id, Trim(editContent));
          isEditModalVisible := false;
        }
      }
    }

    /** Deletes a post once the user confirms and the request succeeds. */
    method HandleDelete(postId: Value, confirmed: bool, succeeded: bool) returns (request: Option<Request>)
      modifies this`posts
      ensures request == if confirmed then Some(DeletePost(postId)) else None
      ensures posts == if confirmed && succeeded then DeletePosts(old(posts), postId) else old(posts)
    {
      request := None;
      if confirmed {
        request := Some(DeletePost(postId));
        if succeeded {
          posts := DeletePosts(posts, postId);
        }
      }
    }

    /** Toggles the like on a post: a liked post is unliked, any other is
        liked; the list changes only once the request succeeds. */
    method HandleLike(p: Post, succeeded: bool) returns (request: Request)
      modifies this`posts
      ensures request == if p.isLiked then UnlikePost(p.id) else LikePost(p.id)
      ensures !succeeded ==> posts == old(posts)
      ensures succeeded && p.isLiked ==> posts == UnlikePosts(old(posts), p.id, currentUserId)
      ensures succeeded && !p.isLiked ==> posts == LikePosts(old(posts), p.id, currentUserId)
      ensures AllConsistent(old(posts), currentUserId) ==> AllConsistent(posts, currentUserId)
    {
      if AllConsistent(posts, currentUserId) {
        LikeAndUnlikeKeepConsistency(posts, p.id, currentUserId);
      }
      if p.isLiked {
        request := UnlikePost(p.id);
        if succeeded {
          posts := UnlikePosts(posts, p.id, currentUserId);
        }
      } else {
        request := LikePost(p.id);
        if succeeded {
          posts := LikePosts(posts, p.id, currentUserId);
        }
      }
    }
  }
}
