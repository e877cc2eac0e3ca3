/** The followed-users feed: like the recent-posts feed, and it also asks,
    for each post, whether the current user follows the post's author. The
    question `isUserFollowed` is answered outside this model and is passed in
    as a function whose answer may also be a throw. */
module Followed {
  import opened Js
  import opened PostData

  /** `{...post, likes, isLiked, isFollowed: await isUserFollowed(post.user_id)}`. */
  function WithFollowStatus(post: RawPost, userId: Value, isUserFollowed: Value -> Completion<Value>): (r: Completion<Post>)
    ensures r.Normal? <==>
      WithLikeStatus(post, userId).Normal? && isUserFollowed(Field(post.fields, "user_id")).Normal?
  {
    match WithLikeStatus(post, userId)
    case Thrown => Thrown
    case Normal(p) =>
      match isUserFollowed(Field(post.fields, "user_id"))
      case Thrown => Thrown
      case Normal(followed) => Normal(p.(fields := p.fields["isFollowed" := followed]))
  }

  function FollowStatusFor(userId: Value, isUserFollowed: Value -> Completion<Value>): RawPost -> Completion<Post> {
    (post: RawPost) => WithFollowStatus(post, userId, isUserFollowed)
  }

  /** `Promise.all(data.map(async post => …))`: rejected as soon as any one
      post's normalisation or follow question throws. */
  function EnrichFollowed(data: seq<RawPost>, userId: Value, isUserFollowed: Value -> Completion<Value>): (r: Completion<seq<Post>>)
    ensures r.Normal? <==> forall i | 0 <= i < |data| ::
      NormaliseLikes(data[i].likes).Normal? && isUserFollowed(Field(data[i].fields, "user_id")).Normal?
  {
    var r := MapOrThrow(data, FollowStatusFor(userId, isUserFollowed));
    assert r.Normal? <==> forall i | 0 <= i < |data| :: WithFollowStatus(data[i], userId, isUserFollowed).Normal? by {
      assert forall i | 0 <= i < |data| ::
        FollowStatusFor(userId, isUserFollowed)(data[i]) == WithFollowStatus(data[i], userId, isUserFollowed);
    }
    r
  }

  /** The loaded feed has the fetched posts in the fetched order; each keeps
      its id, content and other properties, gets the normalised likes and a
      consistent like status, and carries as `isFollowed` the answer for its
      own author. */
  lemma EnrichFollowedKeepsPosts(data: seq<RawPost>, userId: Value, isUserFollowed: Value -> Completion<Value>)
    requires EnrichFollowed(data, userId, isUserFollowed).Normal?
    ensures var posts := EnrichFollowed(data, userId, isUserFollowed).value;
      && |posts| == |data|
      && forall i | 0 <= i < |data| ::
        && posts[i].id == data[i].id && posts[i].content == data[i].content
        && Normal(posts[i].likes) == NormaliseLikes(data[i].likes)
        && LikeStatusConsistent(posts[i], userId)
        && posts[i].fields == data[i].fields["isFollowed" := isUserFollowed(Field(data[i].fields, "user_id")).value]
  {
    var posts := EnrichFollowed(data, userId, isUserFollowed).value;
    forall i | 0 <= i < |data|
      ensures Normal(posts[i]) == WithFollowStatus(data[i], userId, isUserFollowed)
    {
      assert FollowStatusFor(userId, isUserFollowed)(data[i]) == Normal(posts[i]);
    }
  }

  /** `src/utils/users.js` exports no `isUserFollowed`, so the imported name
      is `undefined` and calling it throws inside every post's callback: any
      followed feed with at least one post is rejected. */
  lemma FollowCheckAsImportedRejectsFeed(data: seq<RawPost>, userId: Value)
    requires data != []
    ensures EnrichFollowed(data, userId, (v: Value) => Thrown).Thrown?
  {
  }

  class FollowedScreen {
    var posts: seq<Post>
    var loading: bool
    var currentUserId: Value

    constructor ()
      ensures posts == [] && !loading && currentUserId == Null
    {
      posts := [];
      loading := false;
      currentUserId := Null;
    }

    /** Reads the stored user record; when reading it throws, the id stays. */
    method LoadUserId(userData: Completion<Value>)
      modifies this`currentUserId
      ensures userData.Normal? ==> currentUserId == CurrentUserId(userData.value)
      ensures userData.Thrown? ==> currentUserId == old(currentUserId)
    {
      if userData.Normal? {
        currentUserId := CurrentUserId(userData.value);
      }
    }

    /** Loads the followed users' posts (`fetched` is the outcome of the
        request). Without a current user id nothing happens and no request
        is made; otherwise the list is replaced only when every step
        succeeds, and `loading` ends false either way. */
    method LoadPosts(fetched: Completion<seq<RawPost>>, isUserFollowed: Value -> Completion<Value>)
      returns (requested: bool)
      modifies this`posts, this`loading
      ensures requested <==> Truthy(currentUserId)
      ensures !requested ==> posts == old(posts) && loading == old(loading)
      ensures requested ==> !loading
      ensures requested && fetched.Normal? && EnrichFollowed(fetched.value, currentUserId, isUserFollowed).Normal? ==>
        posts == EnrichFollowed(fetched.value, currentUserId, isUserFollowed).value
      ensures requested && (fetched.Thrown? || EnrichFollowed(fetched.value, currentUserId, isUserFollowed).Thrown?) ==>
        posts == old(posts)
    {
      if !Truthy(currentUserId) {
        return false;
      }
      requested := true;
      loading := true;
      if fetched.Normal? {
        var enriched := EnrichFollowed(fetched.value, currentUserId, isUserFollowed);
        if enriched.Normal? {
          posts := enriched.value;
        }
      }
      loading := false;
    }
  }
}
