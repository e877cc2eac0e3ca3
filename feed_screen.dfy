/** The recent-posts feed: it learns the current user's id from the stored
    session, then loads the recent posts and marks those the user has liked. */
module Feed {
  import opened Js
  import opened PostData

  function LikeStatusFor(userId: Value): RawPost -> Completion<Post> {
    (post: RawPost) => WithLikeStatus(post, userId)
  }

  /** `data.map(post => ({...post, likes, isLiked}))`, which throws when a
      post's likes hold a `null` entry. */
  function EnrichFeed(data: seq<RawPost>, userId: Value): (r: Completion<seq<Post>>)
    ensures r.Normal? <==> forall i | 0 <= i < |data| :: NormaliseLikes(data[i].likes).Normal?
  {
    MapOrThrow(data, LikeStatusFor(userId))
  }

  /** The loaded feed has the fetched posts in the fetched order; each keeps
      its id, content and other properties, gets the normalised likes, and
      has a like status that agrees with them. */
  lemma EnrichFeedKeepsPosts(data: seq<RawPost>, userId: Value)
    requires EnrichFeed(data, userId).Normal?
    ensures var posts := EnrichFeed(data, userId).value;
      && |posts| == |data|
      && forall i | 0 <= i < |data| ::
        && posts[i].id == data[i].id && posts[i].content == data[i].content
        && posts[i].fields == data[i].fields
        && Normal(posts[i].likes) == NormaliseLikes(data[i].likes)
        && LikeStatusConsistent(posts[i], userId)
  {
    var posts := EnrichFeed(data, userId).value;
    forall i | 0 <= i < |data|
      ensures Normal(posts[i]) == WithLikeStatus(data[i], userId)
    {
      assert LikeStatusFor(userId)(data[i]) == Normal(posts[i]);
    }
  }

  class FeedScreen {
    var posts: seq<Post>
    var loading: bool
    var currentUserId: Value

    constructor ()
      ensures posts == [] && !loading && currentUserId == Null
    {
      posts := [];
      loading := false;
      currentUserId := Null;
    }

    /** Reads the stored user record; when reading it throws, the id stays. */
    method LoadUserId(userData: Completion<Value>)
      modifies this`currentUserId
      ensures userData.Normal? ==> currentUserId == CurrentUserId(userData.value)
      ensures userData.Thrown? ==> currentUserId == old(currentUserId)
    {
      if userData.Normal? {
        currentUserId := CurrentUserId(userData.value);
      }
    }

    /** Loads the recent posts (`fetched` is the outcome of the request).
        Without a current user id nothing happens and no request is made;
        otherwise the list is replaced only when fetching and normalising
        both succeed, and `loading` ends false either way. */
    method LoadPosts(fetched: Completion<seq<RawPost>>) returns (requested: bool)
      modifies this`posts, this`loading
      ensures requested <==> Truthy(currentUserId)
      ensures !requested ==> posts == old(posts) && loading == old(loading)
      ensures requested ==> !loading
      ensures requested && fetched.Normal? && EnrichFeed(fetched.value, currentUserId).Normal? ==>
        posts == EnrichFeed(fetched.value, currentUserId).value
      ensures requested && (fetched.Thrown? || EnrichFeed(fetched.value, currentUserId).Thrown?) ==>
        posts == old(posts)
    {
      if !Truthy(currentUserId) {
        return false;
      }
      requested := true;
      loading := true;
      if fetched.Normal? {
        var enriched := EnrichFeed(fetched.value, currentUserId);
        if enriched.Normal? {
          posts := enriched.value;
        }
      }
      loading := false;
    }
  }
}
