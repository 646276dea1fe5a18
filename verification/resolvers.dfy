/** The GraphQL resolvers of graphql/resolvers.js as operations on a store.
    Each mutating resolver returns the store afterwards, the external
    requests it issued and its result or error; the checks run in the
    code's order: authentication, id shape, existence, ownership. */
module Resolvers {
  import opened Types
  import opened Errors
  import JsString
  import Likes
  import Feed

  /** `bcrypt.hash(password, 12)`. */
  const SaltRounds: nat := 12
  /** `expiresIn: '1h'`, in seconds. */
  const TokenLifetime: nat := 3600
  /** The shortest `postId` that `getSinglePost` looks up: a hex ObjectId. */
  const ObjectIdLength: nat := 24
  /** `validator.isLength(password, { min: 5 })`. */
  const MinPasswordLength: nat := 5

  // ----- createUser -----

  /** The `userInput` argument of `createUser`. */
  datatype UserInput = UserInput(firstname: string, lastname: string, email: string, password: string, confirmPassword: string)

  /** Position of a sign-up message in the order the checks run; 4 for any other text. */
  function CheckRank(m: string): nat {
    if m == InvalidEmailMessage then 0
    else if m == NamesRequiredMessage then 1
    else if m == PasswordTooShortMessage then 2
    else if m == PasswordMismatchMessage then 3
    else 4
  }

  /** The messages `createUser` collects before touching the store. Lengths
      are counted in code points, Dafny's `|s|`, as `validator.isLength`
      counts them apart from any variation-selector discount. */
  function SignUpViolations(env: Env, input: UserInput): (errs: seq<string>)
    ensures InvalidEmailMessage in errs <==> !env.isEmail(input.email)
    ensures NamesRequiredMessage in errs <==> input.firstname == [] || input.lastname == []
    ensures PasswordTooShortMessage in errs <==> |input.password| < MinPasswordLength
    ensures PasswordMismatchMessage in errs <==> input.password != input.confirmPassword
    ensures forall i :: 0 <= i < |errs| ==> CheckRank(errs[i]) < 4
    ensures forall i, j :: 0 <= i < j < |errs| ==> CheckRank(errs[i]) < CheckRank(errs[j])
  {
    (if !env.isEmail(input.email) then [InvalidEmailMessage] else [])
    + (if input.firstname == [] || input.lastname == [] then [NamesRequiredMessage] else [])
    + (if input.password == [] || |input.password| < MinPasswordLength then [PasswordTooShortMessage] else [])
    + (if input.password != input.confirmPassword then [PasswordMismatchMessage] else [])
  }

  /** The ids of the users `User.findOne({ email })` can match. */
  function UsersWithEmail(s: Store, email: string): set<Id> {
    set k | k in s.users && s.users[k].email == email
  }

  /** No two stored users share an e-mail address. */
  predicate UniqueEmails(s: Store) {
    forall a, b :: a in s.users && b in s.users && s.users[a].email == s.users[b].email ==> a == b
  }

  /** `createUser`: validate every field, refuse a taken e-mail, then store
      the user with the hash of the password. `newId` is the fresh ObjectId
      the database assigns. */
  function CreateUser(s: Store, env: Env, input: UserInput, newId: Id): (r: Reply<Doc<User>>)
    requires newId !in s.users
    ensures r.effects == []
    ensures SignUpViolations(env, input) != [] ==>
      r.store == s && r.result == Err(InvalidInput(SignUpViolations(env, input)))
    ensures SignUpViolations(env, input) == [] && UsersWithEmail(s, input.email) != {} ==>
      r.store == s && r.result == Err(UserExists)
    ensures r.result.Ok? <==> SignUpViolations(env, input) == [] && UsersWithEmail(s, input.email) == {}
    ensures r.result.Ok? ==>
      && r.result.value.id == newId
      && r.result.value.body == User(input.firstname, input.lastname, input.email, env.hash(input.password, SaltRounds))
      && r.store == s.(users := s.users[newId := r.result.value.body])
  {
    var violations := SignUpViolations(env, input);
    if violations != [] then
      Reply(s, [], Err(InvalidInput(violations)))
    else if UsersWithEmail(s, input.email) != {} then
      Reply(s, [], Err(UserExists))
    else
      var user := User(input.firstname, input.lastname, input.email, env.hash(input.password, SaltRounds));
      Reply(s.(users := s.users[newId := user]), [], Ok(Doc(newId, user)))
  }

  // ----- login -----

  /** What `login` resolves to: the signed token and the user's document. */
  datatype AuthData = AuthData(token: string, user: Doc<User>)

  /** `login`: check the e-mail's shape, find the user, compare the password
      with the stored hash, and sign a one-hour token for `{userId, email}`.
      `findOne` may pick any user with that e-mail. */
  method Login(s: Store, env: Env, email: string, password: string) returns (r: Result<AuthData>)
    ensures !env.isEmail(email) ==> r == Err(LoginInvalidInput)
    ensures env.isEmail(email) && UsersWithEmail(s, email) == {} ==> r == Err(NoUserFound)
    ensures env.isEmail(email) && UsersWithEmail(s, email) != {}
            && (forall k :: k in UsersWithEmail(s, email) ==> !env.compare(password, s.users[k].password))
            ==> r == Err(WrongPassword)
    ensures r.Ok? ==>
      && env.isEmail(email)
      && r.value.user.id in UsersWithEmail(s, email)
      && r.value.user.body == s.users[r.value.user.id]
      && env.compare(password, r.value.user.body.password)
      && r.value.token == env.sign(Claims(r.value.user.id, r.value.user.body.email), env.jwtSecret, TokenLifetime)
    ensures r.Err? ==> r.error in {LoginInvalidInput, NoUserFound, WrongPassword}
    ensures UniqueEmails(s) ==>
      (r.Ok? <==> env.isEmail(email) && exists k :: k in UsersWithEmail(s, email) && env.compare(password, s.users[k].password))
  {
    if !env.isEmail(email) {
      return Err(LoginInvalidInput);
    }
    var candidates := UsersWithEmail(s, email);
    if candidates == {} {
      return Err(NoUserFound);
    }
    var id :| id in candidates;
    var user := s.users[id];
    if !env.compare(password, user.password) {
      return Err(WrongPassword);
    }
    var token := env.sign(Claims(id, user.email), env.jwtSecret, TokenLifetime);
    return Ok(AuthData(token, Doc(id, user)));
  }

  // ----- createPost -----

  /** The arguments of `createPost`. */
  datatype PostInput = PostInput(imageUrl: string, imagePublicId: string, caption: Option<string>)

  /** `createPost`: demand an image URL and store a post owned by
      `req.userId`. There is no authentication check: an anonymous request
      stores a post without owner. Saving a post with an empty
      `imagePublicId` fails the schema's `required` validation. */
  function CreatePost(s: Store, auth: Auth, input: PostInput, newId: Id, now: Timestamp): (r: Reply<Doc<Post>>)
    requires newId !in s.posts
    ensures r.effects == []
    ensures r.result == Err(ImageRequired) <==> input.imageUrl == []
    ensures input.imageUrl != [] && input.imagePublicId == [] ==> r.result == Err(ImagePublicIdMissing)
    ensures r.result.Err? ==> r.store == s
    ensures r.result.Ok? <==> input.imageUrl != [] && input.imagePublicId != []
    ensures r.result.Ok? ==>
      && r.result.value.id == newId
      && r.result.value.body == Post(auth.UserId(), input.imageUrl, input.imagePublicId, input.caption, [], now, now)
      && r.store == s.(posts := s.posts[newId := r.result.value.body])
  {
    if input.imageUrl == [] then
      Reply(s, [], Err(ImageRequired))
    else if input.imagePublicId == [] then
      Reply(s, [], Err(ImagePublicIdMissing))
    else
      var post := Post(auth.UserId(), input.imageUrl, input.imagePublicId, input.caption, [], now, now);
      Reply(s.(posts := s.posts[newId := post]), [], Ok(Doc(newId, post)))
  }

  // ----- getPosts -----

  /** One post of the feed, with the newest comment on it if there is one. */
  datatype FeedEntry = FeedEntry(post: Doc<Post>, newestComment: Option<Doc<Comment>>)

  /** The posts of a feed, in feed order. */
  function PostsOf(entries: seq<FeedEntry>): seq<Doc<Post>> {
    seq(|entries|, i requires 0 <= i < |entries| => entries[i].post)
  }

  /** `entries` is a feed of `s`: every stored post once, newest first, each
      with the newest comment on it. */
  predicate IsFeed(s: Store, entries: seq<FeedEntry>) {
    && Feed.ListsEachPostOnce(s.posts, PostsOf(entries))
    && Feed.NewestFirst(PostsOf(entries))
    && forall i :: 0 <= i < |entries| ==> Feed.IsNewestComment(s.comments, entries[i].post.id, entries[i].newestComment)
  }

  /** `getPosts`: refuse anonymous requests before any query, else the feed. */
  method GetPosts(s: Store, auth: Auth) returns (r: Result<seq<FeedEntry>>)
    ensures !auth.IsAuth() ==> r == Err(NotAuthenticated)
    ensures auth.IsAuth() ==> r.Ok? && IsFeed(s, r.value)
  {
    if !auth.IsAuth() {
      return Err(NotAuthenticated);
    }
    var ordered := Feed.SortNewestFirst(s.posts);
    var entries: seq<FeedEntry> := [];
    var i := 0;
    while i < |ordered|
      invariant 0 <= i <= |ordered| && |entries| == i
      invariant forall j :: 0 <= j < i ==>
        entries[j].post == ordered[j] && Feed.IsNewestComment(s.comments, ordered[j].id, entries[j].newestComment)
    {
      var newest := Feed.NewestComment(s.comments, ordered[i].id);
      entries := entries + [FeedEntry(ordered[i], newest)];
      i := i + 1;
    }
    assert PostsOf(entries) == ordered;
    return Ok(entries);
  }

  // ----- createComment -----

  /** What `createComment` resolves to: the text with the author and the post
      populated from the store. */
  datatype CommentView = CommentView(text: string, author: Doc<User>, post: Doc<Post>)

  /** `createComment`: authenticated requests only, on an existing post. The
      comment is saved before author and post are populated, so an author id
      with no stored user leaves the comment saved and fails reading `_doc`. */
  function CreateComment(s: Store, auth: Auth, postId: Id, text: string, newId: Id, now: Timestamp): (r: Reply<CommentView>)
    requires newId !in s.comments
    ensures r.effects == []
    ensures !auth.IsAuth() ==> r.store == s && r.result == Err(NotAuthenticated)
    ensures auth.IsAuth() && postId !in s.posts ==> r.store == s && r.result == Err(PostUnavailable)
    ensures auth.IsAuth() && postId in s.posts ==>
      r.store == s.(comments := s.comments[newId := Comment(postId, auth.userId, text, now, now)])
    ensures r.result.Ok? <==> auth.IsAuth() && postId in s.posts && auth.userId in s.users
    ensures auth.IsAuth() && postId in s.posts && auth.userId !in s.users ==> r.result == Err(MissingProperty("null", "_doc"))
    ensures r.result.Ok? ==>
      r.result.value == CommentView(text, Doc(auth.userId, s.users[auth.userId]), Doc(postId, s.posts[postId]))
  {
    if !auth.IsAuth() then
      Reply(s, [], Err(NotAuthenticated))
    else if postId !in s.posts then
      Reply(s, [], Err(PostUnavailable))
    else
      var saved := s.(comments := s.comments[newId := Comment(postId, auth.userId, text, now, now)]);
      if auth.userId !in s.users then
        Reply(saved, [], Err(MissingProperty("null", "_doc")))
      else
        Reply(saved, [], Ok(CommentView(text, Doc(auth.userId, s.users[auth.userId]), Doc(postId, s.posts[postId]))))
  }

  // ----- likeAPost -----

  /** `likeAPost`: authenticated requests only, on an existing post; toggles
      the requester on the like list and saves, which bumps `updatedAt`. */
  function LikeAPost(s: Store, auth: Auth, postId: Id, now: Timestamp): (r: Reply<Doc<Post>>)
    ensures r.effects == []
    ensures !auth.IsAuth() ==> r.store == s && r.result == Err(NotAuthenticated)
    ensures auth.IsAuth() && postId !in s.posts ==> r.store == s && r.result == Err(PostUnavailable)
    ensures r.result.Ok? <==> auth.IsAuth() && postId in s.posts
    ensures r.result.Ok? ==>
      var before := s.posts[postId];
      var after := r.result.value.body;
      && r.result.value.id == postId
      && after.likes == Likes.Toggle(before.likes, auth.userId)
      && after == before.(likes := after.likes, updatedAt := now)
      && r.store == s.(posts := s.posts[postId := after])
  {
    if !auth.IsAuth() then
      Reply(s, [], Err(NotAuthenticated))
    else if postId !in s.posts then
      Reply(s, [], Err(PostUnavailable))
    else
      var post := s.posts[postId];
      var liked := post.(likes := Likes.Toggle(post.likes, auth.userId), updatedAt := now);
      Reply(s.(posts := s.posts[postId := liked]), [], Ok(Doc(postId, liked)))
  }

  // ----- getSinglePost -----

  /** What `getSinglePost` resolves to: the post and the comments on it. The
      database returns the comments in an unspecified order, so they are a set. */
  datatype PostDetail = PostDetail(post: Doc<Post>, comments: set<Doc<Comment>>)

  /** The stored comments on `postId`: `Comment.find({ post: postId })`. */
  function CommentsOn(comments: map<Id, Comment>, postId: Id): set<Doc<Comment>> {
    set k | k in comments && comments[k].post == postId :: Doc(k, comments[k])
  }

  /** `getSinglePost`: authentication, then an id too short to be an ObjectId
      (in UTF-16 code units, as JavaScript's `length`) is refused without a
      query, then the post must exist. */
  function GetSinglePost(s: Store, auth: Auth, postId: Id): (r: Result<PostDetail>)
    ensures !auth.IsAuth() ==> r == Err(NotAuthenticated)
    ensures auth.IsAuth() && JsString.Utf16Length(postId) < ObjectIdLength ==> r == Err(WrongUrl)
    ensures auth.IsAuth() && JsString.Utf16Length(postId) >= ObjectIdLength && postId !in s.posts ==>
      r == Err(PostUnavailable)
    ensures r.Ok? <==> auth.IsAuth() && JsString.Utf16Length(postId) >= ObjectIdLength && postId in s.posts
    ensures r.Ok? ==>
      && r.value.post == Doc(postId, s.posts[postId])
      && (forall d :: d in r.value.comments ==> d.body.post == postId && d.id in s.comments && s.comments[d.id] == d.body)
      && (forall k :: k in s.comments && s.comments[k].post == postId ==> Doc(k, s.comments[k]) in r.value.comments)
  {
    if !auth.IsAuth() then
      Err(NotAuthenticated)
    else if JsString.Utf16Length(postId) < ObjectIdLength then
      Err(WrongUrl)
    else if postId !in s.posts then
      Err(PostUnavailable)
    else
      Ok(PostDetail(Doc(postId, s.posts[postId]), CommentsOn(s.comments, postId)))
  }

  // ----- deleteAPost -----

  /** `deleteAPost`: authentication, existence, then ownership, compared
      against the populated owner's `_id` (a missing owner raises a
      TypeError). The owner's request deletes the post, asks Cloudinary to
      destroy its image, and returns the post as it was. Comments on the post
      are left in place. */
  function DeleteAPost(s: Store, auth: Auth, postId: Id): (r: Reply<Doc<Post>>)
    ensures !auth.IsAuth() ==> r.result == Err(NotAuthenticated)
    ensures auth.IsAuth() && postId !in s.posts ==> r.result == Err(PostUnavailable)
    ensures auth.IsAuth() && postId in s.posts && s.posts[postId].owner.None? ==>
      r.result == Err(MissingProperty("undefined", "_id"))
    ensures auth.IsAuth() && postId in s.posts && s.posts[postId].owner.Some? && s.posts[postId].owner.value !in s.users ==>
      r.result == Err(MissingProperty("null", "_id"))
    ensures auth.IsAuth() && postId in s.posts && s.posts[postId].owner.Some? && s.posts[postId].owner.value in s.users
            && s.posts[postId].owner.value != auth.userId ==>
      r.result == Err(NotAuthorized)
    ensures r.result.Err? ==> r.store == s && r.effects == []
    ensures r.result.Ok? <==> auth.IsAuth() && postId in s.posts && s.posts[postId].owner == Some(auth.userId) && auth.userId in s.users
    ensures r.result.Ok? ==>
      && r.result.value == Doc(postId, s.posts[postId])
      && r.store == s.(posts := s.posts - {postId})
      && r.effects == [DestroyAsset(s.posts[postId].imagePublicId)]
  {
    if !auth.IsAuth() then
      Reply(s, [], Err(NotAuthenticated))
    else if postId !in s.posts then
      Reply(s, [], Err(PostUnavailable))
    else
      var post := s.posts[postId];
      match post.owner
      case None => Reply(s, [], Err(MissingProperty("undefined", "_id")))
      case Some(owner) =>
        if owner !in s.users then
          Reply(s, [], Err(MissingProperty("null", "_id")))
        else if auth.userId != owner then
          Reply(s, [], Err(NotAuthorized))
        else
          Reply(s.(posts := s.posts - {postId}), [DestroyAsset(post.imagePublicId)], Ok(Doc(postId, post)))
  }
}
