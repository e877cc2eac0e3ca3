/** Posts as the server sends them and as the screens hold them, and the
    client-side like normalisation that the recent-posts feed and the
    followed-users feed both apply (the same code appears in each screen). */
module PostData {
  import opened Js

  /** A post as the server returns it. `likes` may be any value; `fields`
      holds every other property (user_id, username, created_at, …). */
  datatype RawPost = RawPost(id: Value, content: string, likes: Value, fields: map<string, Value>)

  /** A post as the screens hold it: `likes` is a list of user ids and
      `isLiked` says whether the current user is among them. */
  datatype Post = Post(id: Value, content: string, likes: seq<Value>, isLiked: bool, fields: map<string, Value>)

  /** `post[key]` for a property kept in `fields`. */
  function Field(fields: map<string, Value>, key: string): Value {
    if key in fields then fields[key] else Undefined
  }

  /** `String(a) === String(b)`. */
  predicate SameString(a: Value, b: Value) {
    ToJsString(a) == ToJsString(b)
  }

  /** The user id a single like entry stands for: an object's truthy
      `user_id`, else its truthy `id`, else the entry itself. A `null` entry
      passes `typeof like === 'object'` and then throws on `like.user_id`. */
  function LikeId(like: Value): (r: Completion<Value>)
    ensures r.Thrown? <==> like.Null?
    ensures like.Obj? && Truthy(OptionalProp(like, "user_id")) ==>
      r == Normal(OptionalProp(like, "user_id"))
    ensures like.Obj? && !Truthy(OptionalProp(like, "user_id")) && Truthy(OptionalProp(like, "id")) ==>
      r == Normal(OptionalProp(like, "id"))
    ensures !like.Null? && !(like.Obj? && (Truthy(OptionalProp(like, "user_id")) || Truthy(OptionalProp(like, "id")))) ==>
      r == Normal(like)
  {
    if IsObjectType(like) then
      match Prop(like, "user_id")
      case Thrown => Thrown
      case Normal(userId) =>
        if Truthy(userId) then Normal(userId)
        else
          match Prop(like, "id")
          case Thrown => Thrown
          case Normal(id) => if Truthy(id) then Normal(id) else Normal(like)
    else Normal(like)
  }

  /** `Array.isArray(likes) ? likes.map(LikeId) : []`. */
  function NormaliseLikes(likes: Value): (r: Completion<seq<Value>>)
    ensures !likes.Arr? ==> r == Normal([])
    ensures likes.Arr? ==> (r.Thrown? <==> Null in likes.elems)
    ensures likes.Arr? && r.Normal? ==> |r.value| == |likes.elems|
    ensures likes.Arr? && r.Normal? ==>
      forall i | 0 <= i < |likes.elems| :: LikeId(likes.elems[i]) == Normal(r.value[i])
  {
    if likes.Arr? then
      var r := MapOrThrow(likes.elems, LikeId);
      assert r.Thrown? ==> Null in likes.elems by {
        if r.Thrown? {
          var i :| 0 <= i < |likes.elems| && !LikeId(likes.elems[i]).Normal?;
        }
      }
      r
    else Normal([])
  }

  /** `likes.some(likeId => String(likeId) === String(userId))`. */
  function IsLikedBy(likes: seq<Value>, userId: Value): (r: bool)
    ensures r <==> exists i | 0 <= i < |likes| :: SameString(likes[i], userId)
  {
    if likes == [] then false
    else
      var rest := IsLikedBy(likes[1..], userId);
      assert rest <==> exists i | 1 <= i < |likes| :: SameString(likes[i], userId) by {
        if rest {
          var j :| 0 <= j < |likes[1..]| && SameString(likes[1..][j], userId);
          assert likes[j + 1] == likes[1..][j];
        }
        if exists i | 1 <= i < |likes| :: SameString(likes[i], userId) {
          var i :| 1 <= i < |likes| && SameString(likes[i], userId);
          assert likes[1..][i - 1] == likes[i];
        }
      }
      SameString(likes[0], userId) || rest
  }

  /** A post's `isLiked` agrees with its `likes` list for the given user. */
  predicate LikeStatusConsistent(p: Post, userId: Value) {
    p.isLiked == IsLikedBy(p.likes, userId)
  }

  /** `{...post, likes: likesArray, isLiked}` as both feeds build it. */
  function WithLikeStatus(post: RawPost, userId: Value): (r: Completion<Post>)
    ensures r.Thrown? <==> NormaliseLikes(post.likes).Thrown?
    ensures r.Normal? ==> r.value.likes == NormaliseLikes(post.likes).value
    ensures r.Normal? ==> LikeStatusConsistent(r.value, userId)
    ensures r.Normal? ==>
      r.value.id == post.id && r.value.content == post.content && r.value.fields == post.fields
  {
    match NormaliseLikes(post.likes)
    case Thrown => Thrown
    case Normal(likes) => Normal(Post(post.id, post.content, likes, IsLikedBy(likes, userId), post.fields))
  }

  /** `userData?.id || userData?.user_id || userData?.userId`: the first
      truthy one of the three, else the value of `userId` (possibly undefined). */
  function CurrentUserId(userData: Value): (r: Value)
    ensures
      var id, user_id, userId :=
        OptionalProp(userData, "id"), OptionalProp(userData, "user_id"), OptionalProp(userData, "userId");
      && (Truthy(id) ==> r == id)
      && (!Truthy(id) && Truthy(user_id) ==> r == user_id)
      && (!Truthy(id) && !Truthy(user_id) ==> r == userId)
    ensures !userData.Obj? ==> r == Undefined
  {
    Or(Or(OptionalProp(userData, "id"), OptionalProp(userData, "user_id")), OptionalProp(userData, "userId"))
  }

  /** Two numbers, or two strings, have the same string form exactly when
      they are equal; `String(…)` comparison and `===` then agree. */
  lemma SameStringSameKind(a: Value, b: Value)
    requires (a.Num? && b.Num?) || (a.Text? && b.Text?)
    ensures SameString(a, b) <==> a == b
  {
    if a.Num? && SameString(a, b) {
      NumberToStringInjective(a.n, b.n);
    }
  }

  /** A number and a string can share their string form while `===` tells
      them apart: the user id 5 and the user id "5". */
  lemma NumberAndStringIdsCollide()
    ensures SameString(Num(5), Text("5")) && Num(5) != Text("5")
  {
    assert DecimalDigits(5) == "5";
  }
}
