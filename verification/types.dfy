/** Documents, request context, collaborators and results shared by the
    resolvers of graphql/resolvers.js. The document shapes follow the
    mongoose schemas in models/User.js, models/Post.js and models/Comment.js;
    the database itself is three maps keyed by document id. */
module Types {

  /** A document id: a Mongo ObjectId, which clients handle as a hex string. */
  type Id = string

  /** A `createdAt`/`updatedAt` instant; only its order matters here. */
  type Timestamp = nat

  datatype Option<T> = None | Some(value: T)

  /** A stored account. `password` holds the bcrypt hash, never the raw password. */
  datatype User = User(firstname: string, lastname: string, email: string, password: string)

  /** A stored post. `owner` is absent when the post was created by an
      unauthenticated request; `likes` is an array of user ids. */
  datatype Post = Post(
    owner: Option<Id>,
    imageUrl: string,
    imagePublicId: string,
    caption: Option<string>,
    likes: seq<Id>,
    createdAt: Timestamp,
    updatedAt: Timestamp)

  /** A stored comment, referring to its post and its author by id. */
  datatype Comment = Comment(post: Id, author: Id, text: string, createdAt: Timestamp, updatedAt: Timestamp)

  /** The three collections, each keyed by document id. */
  datatype Store = Store(users: map<Id, User>, posts: map<Id, Post>, comments: map<Id, Comment>)

  /** A document together with its id, as a resolver hands it back. */
  datatype Doc<T> = Doc(id: Id, body: T)

  /** What the authentication middleware leaves on the request: `req.isAuth`,
      and `req.userId`, assumed present exactly when `req.isAuth` holds. */
  datatype Auth = Anonymous | Authenticated(userId: Id) {
    predicate IsAuth() { Authenticated? }

    /** `req.userId`, which is undefined on an unauthenticated request. */
    function UserId(): Option<Id> {
      match this
      case Anonymous => None
      case Authenticated(u) => Some(u)
    }
  }

  /** The payload of an identity token. */
  datatype Claims = Claims(userId: Id, email: string)

  /** The external libraries the resolvers call, as uninterpreted functions:
      `validator.isEmail`, `bcrypt.hash(password, rounds)`,
      `bcrypt.compare(password, hash)`, `jwt.sign(payload, secret, lifetime)`,
      and the server's signing secret. */
  datatype Env = Env(
    isEmail: string -> bool,
    hash: (string, nat) -> string,
    compare: (string, string) -> bool,
    sign: (Claims, string, nat) -> string,
    jwtSecret: string)

  /** An Error thrown by a resolver: its message and the `code` and `data`
      fields the resolver attached to it, if any. `data` lists the
      `message` of each entry of the attached array. */
  datatype ResolverError = ResolverError(message: string, code: Option<int>, data: Option<seq<string>>)

  /** What a resolver resolves to, or the error it throws. */
  datatype Result<T> = Ok(value: T) | Err(error: ResolverError)

  /** A request to an external service issued while resolving; the only one
      is Cloudinary's `uploader.destroy(publicId)`. */
  datatype Effect = DestroyAsset(publicId: string)

  /** The outcome of a mutating resolver: the store afterwards, the external
      requests it issued in order, and its result. */
  datatype Reply<T> = Reply(store: Store, effects: seq<Effect>, result: Result<T>)
}
