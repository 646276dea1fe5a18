/** Properties relating several resolver calls: sign-up and login, the like
    toggle as an involution, what deletion and creation make visible, and the
    store invariants the mutations keep. */
module ResolverLaws {
  import opened Types
  import opened Errors
  import opened Resolvers
  import Likes
  import JsString

  /** Every post's like list holds each user at most once. */
  predicate LikesAreSets(s: Store) {
    forall k :: k in s.posts ==> Likes.NoDuplicates(s.posts[k].likes)
  }

  // ----- accounts -----

  /** A successful sign-up never creates a second account for an e-mail. */
  lemma SignUpKeepsEmailsUnique(s: Store, env: Env, input: UserInput, newId: Id)
    requires newId !in s.users && UniqueEmails(s)
    ensures UniqueEmails(CreateUser(s, env, input, newId).store)
  {
    var r := CreateUser(s, env, input, newId);
    if r.result.Ok? {
      forall k | k in s.users
        ensures s.users[k].email != input.email
      {
        assert k !in UsersWithEmail(s, input.email);
      }
    }
  }

  /** After a successful sign-up the new account is the only one `login`
      can find for that e-mail, and it holds the password's hash; so login
      with the same password succeeds whenever `bcrypt.compare` accepts a
      password against its own hash. */
  lemma SignUpMakesAccountFindable(s: Store, env: Env, input: UserInput, newId: Id)
    requires newId !in s.users
    requires CreateUser(s, env, input, newId).result.Ok?
    ensures UsersWithEmail(CreateUser(s, env, input, newId).store, input.email) == {newId}
    ensures CreateUser(s, env, input, newId).store.users[newId].password == env.hash(input.password, SaltRounds)
    ensures env.isEmail(input.email)
  {
    var s' := CreateUser(s, env, input, newId).store;
    assert UsersWithEmail(s, input.email) == {};
    forall k | k in UsersWithEmail(s', input.email)
      ensures k == newId
    {
      assert k !in UsersWithEmail(s, input.email);
    }
    assert newId in UsersWithEmail(s', input.email);
    assert InvalidEmailMessage !in SignUpViolations(env, input);
  }

  /** Signing up twice with one e-mail: the second attempt fails and stores
      nothing, with `UserExists` once its fields are valid. */
  lemma SecondSignUpFails(s: Store, env: Env, first: UserInput, second: UserInput, id1: Id, id2: Id)
    requires id1 !in s.users
    requires CreateUser(s, env, first, id1).result.Ok?
    requires id2 !in CreateUser(s, env, first, id1).store.users
    requires second.email == first.email
    ensures var s' := CreateUser(s, env, first, id1).store;
      && CreateUser(s', env, second, id2).result.Err?
      && CreateUser(s', env, second, id2).store == s'
      && (SignUpViolations(env, second) == [] ==> CreateUser(s', env, second, id2).result == Err(UserExists))
  {
    SignUpMakesAccountFindable(s, env, first, id1);
  }

  /** Invalid sign-up input is refused the same way whatever the store holds:
      no lookup happens before the validation error. */
  lemma SignUpValidationNeedsNoStore(s1: Store, s2: Store, env: Env, input: UserInput, id1: Id, id2: Id)
    requires id1 !in s1.users && id2 !in s2.users
    requires SignUpViolations(env, input) != []
    ensures CreateUser(s1, env, input, id1).result == CreateUser(s2, env, input, id2).result
    ensures CreateUser(s1, env, input, id1).store == s1
  {
  }

  // ----- posts and likes -----

  /** `createPost` never consults authentication: an anonymous request
      succeeds exactly when an authenticated one does, storing an ownerless post. */
  lemma CreatePostIgnoresAuthentication(s: Store, auth: Auth, input: PostInput, newId: Id, now: Timestamp)
    requires newId !in s.posts
    ensures CreatePost(s, Anonymous, input, newId, now).result.Ok? == CreatePost(s, auth, input, newId, now).result.Ok?
    ensures CreatePost(s, Anonymous, input, newId, now).result.Ok? ==>
      CreatePost(s, Anonymous, input, newId, now).store.posts[newId].owner == None
  {
  }

  /** Liking flips the requester's membership in the like list and nobody else's. */
  lemma LikeFlipsMembership(s: Store, auth: Auth, postId: Id, now: Timestamp)
    requires LikesAreSets(s) && auth.IsAuth() && postId in s.posts
    ensures var after := LikeAPost(s, auth, postId, now).store.posts[postId].likes;
      && (auth.userId in after <==> auth.userId !in s.posts[postId].likes)
      && forall v :: v != auth.userId ==> (v in after <==> v in s.posts[postId].likes)
  {
    Likes.ToggleFlipsMembership(s.posts[postId].likes, auth.userId);
  }

  /** Liking a post twice restores who likes it, and the list itself when
      the requester had not liked it; nothing else in the store moves but
      the post's `updatedAt`. */
  lemma LikeTwiceRestoresLikers(s: Store, auth: Auth, postId: Id, now1: Timestamp, now2: Timestamp)
    requires LikesAreSets(s) && auth.IsAuth() && postId in s.posts
    ensures var s2 := LikeAPost(LikeAPost(s, auth, postId, now1).store, auth, postId, now2).store;
      && postId in s2.posts
      && (forall v :: v in s2.posts[postId].likes <==> v in s.posts[postId].likes)
      && (auth.userId !in s.posts[postId].likes ==> s2.posts[postId] == s.posts[postId].(updatedAt := now2))
      && s2.users == s.users && s2.comments == s.comments
      && forall k :: k in s.posts && k != postId ==> k in s2.posts && s2.posts[k] == s.posts[k]
  {
    Likes.ToggleTwice(s.posts[postId].likes, auth.userId);
  }

  lemma CreatePostKeepsLikesSets(s: Store, auth: Auth, input: PostInput, newId: Id, now: Timestamp)
    requires newId !in s.posts && LikesAreSets(s)
    ensures LikesAreSets(CreatePost(s, auth, input, newId, now).store)
  {
  }

  lemma LikeAPostKeepsLikesSets(s: Store, auth: Auth, postId: Id, now: Timestamp)
    requires LikesAreSets(s)
    ensures LikesAreSets(LikeAPost(s, auth, postId, now).store)
  {
    if auth.IsAuth() && postId in s.posts {
      Likes.ToggleKeepsNoDuplicates(s.posts[postId].likes, auth.userId);
    }
  }

  lemma DeleteAPostKeepsLikesSets(s: Store, auth: Auth, postId: Id)
    requires LikesAreSets(s)
    ensures LikesAreSets(DeleteAPost(s, auth, postId).store)
  {
  }

  /** After the owner deletes a post, every resolver that looks it up finds
      nothing, while its comments stay in the store. */
  lemma DeletedPostIsGone(s: Store, auth: Auth, postId: Id, viewer: Auth, now: Timestamp)
    requires DeleteAPost(s, auth, postId).result.Ok?
    requires viewer.IsAuth()
    ensures var s' := DeleteAPost(s, auth, postId).store;
      && GetSinglePost(s', viewer, postId).Err?
      && LikeAPost(s', viewer, postId, now).result == Err(PostUnavailable)
      && DeleteAPost(s', viewer, postId).result == Err(PostUnavailable)
      && s'.comments == s.comments
  {
  }

  /** A post just created is what `getSinglePost` returns for its id, with
      no comments yet. */
  lemma CreatedPostIsVisible(s: Store, auth: Auth, input: PostInput, newId: Id, now: Timestamp, viewer: Auth)
    requires newId !in s.posts
    requires CreatePost(s, auth, input, newId, now).result.Ok?
    requires viewer.IsAuth() && JsString.Utf16Length(newId) >= ObjectIdLength
    requires forall k :: k in s.comments ==> s.comments[k].post != newId
    ensures GetSinglePost(CreatePost(s, auth, input, newId, now).store, viewer, newId)
         == Ok(PostDetail(CreatePost(s, auth, input, newId, now).result.value, {}))
  {
    var s' := CreatePost(s, auth, input, newId, now).store;
    assert CommentsOn(s'.comments, newId) == {};
  }

  /** A comment just created appears among the post's comments. */
  lemma CreatedCommentIsListed(s: Store, auth: Auth, postId: Id, text: string, newId: Id, now: Timestamp, viewer: Auth)
    requires newId !in s.comments
    requires auth.IsAuth() && postId in s.posts
    requires viewer.IsAuth() && JsString.Utf16Length(postId) >= ObjectIdLength
    ensures var s' := CreateComment(s, auth, postId, text, newId, now).store;
      && GetSinglePost(s', viewer, postId).Ok?
      && Doc(newId, Comment(postId, auth.userId, text, now, now)) in GetSinglePost(s', viewer, postId).value.comments
  {
    var s' := CreateComment(s, auth, postId, text, newId, now).store;
    assert newId in s'.comments && s'.comments[newId].post == postId;
  }

  /** An id shorter than an ObjectId is refused the same way whatever the
      store holds: no query is made. */
  lemma ShortIdNeedsNoStore(s1: Store, s2: Store, auth: Auth, postId: Id)
    requires JsString.Utf16Length(postId) < ObjectIdLength
    ensures GetSinglePost(s1, auth, postId) == GetSinglePost(s2, auth, postId)
    ensures auth.IsAuth() ==> GetSinglePost(s1, auth, postId) == Err(WrongUrl)
  {
  }

  /** A 24-character hex id, the form of every ObjectId, passes the length check. */
  lemma HexIdsPassLengthCheck(postId: Id)
    requires |postId| == 24
    requires forall i :: 0 <= i < |postId| ==> postId[i] in "0123456789abcdef"
    ensures JsString.Utf16Length(postId) >= ObjectIdLength
  {
    JsString.BmpUtf16Length(postId);
  }

  /** A creates a post, B likes and unlikes it, B may not delete it, A can:
      the post disappears and one destroy request names its image. */
  lemma LikeUnlikeDeleteScenario(s: Store, a: Id, b: Id, p: Id, input: PostInput, t0: Timestamp, t1: Timestamp, t2: Timestamp)
    requires a in s.users && b in s.users && a != b && p !in s.posts
    requires input.imageUrl != [] && input.imagePublicId != []
    ensures var s1 := CreatePost(s, Authenticated(a), input, p, t0).store;
      var s2 := LikeAPost(s1, Authenticated(b), p, t1).store;
      var s3 := LikeAPost(s2, Authenticated(b), p, t2).store;
      && s2.posts[p].likes == [b]
      && s3.posts[p].likes == []
      && DeleteAPost(s3, Authenticated(b), p) == Reply(s3, [], Err(NotAuthorized))
      && DeleteAPost(s3, Authenticated(a), p).effects == [DestroyAsset(input.imagePublicId)]
      && p !in DeleteAPost(s3, Authenticated(a), p).store.posts
  {
    var s1 := CreatePost(s, Authenticated(a), input, p, t0).store;
    var s2 := LikeAPost(s1, Authenticated(b), p, t1).store;
    assert Likes.FindIndex([b], b) == 0;
  }
}
