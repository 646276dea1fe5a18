# Picture app resolvers, modelled in Dafny

A model of the server of a small picture-sharing app. Registered users post
images, comment on posts and like them. The model covers the GraphQL
resolvers in `graphql/resolvers.js`: sign-up (`createUser`), `login`,
`createPost`, the feed (`getPosts`), `createComment`, `likeAPost`,
`getSinglePost` and `deleteAPost`. It also covers two helpers: the error
formatter `customFormatErrorFn` of `app.js`, and the upload `fileFilter` of
`middleware/cloudinaryUpload.js`.

The database is a `Store` of three maps, for users, posts and comments, each
keyed by document id. A mutating resolver is a pure function from a store,
the request's authentication and its arguments to a `Reply`. A `Reply` holds
the store afterwards, the external requests issued (Cloudinary's
`uploader.destroy`), and a result or a `ResolverError`. A `ResolverError`
has a message, an optional `code` and optional `data`, as the code throws
them. `login` and `getPosts` are methods, not functions: the database may
pick among several matching users, or order posts with equal timestamps
either way, and a method can make that choice.

The external libraries are uninterpreted functions in an `Env` value:
`validator.isEmail`, `bcrypt.hash`, `bcrypt.compare` and `jwt.sign`, plus the
signing secret. Fresh ObjectIds and the current time are parameters. The
authentication middleware is not part of this model. Its output is the
`Auth` value, `Anonymous` or `Authenticated(userId)`; the assumption this
makes about the middleware is listed under "Left out".

Modules: `Types` (documents, store, results), `Errors` (every error the
resolvers throw), `JsString` (JavaScript's string length), `Likes` (the like
toggle), `Feed` (feed ordering and newest comment), `Resolvers`,
`ResolverLaws` (properties across calls), `ErrorFormat` and `UploadFilter`.

The model follows the code, including these behaviours:

- `createPost` checks no authentication. An anonymous request stores a post without an owner.
- `likeAPost` toggles an array entry with a plain read-modify-write of the whole list. A list that already holds duplicates therefore loses one copy per toggle (`Likes.DuplicatesBreakToggleTwice`).
- The e-mail uniqueness check is an exact, case-sensitive string match.
- `createUser` returns the stored document, hashed password included.
- Errors caught and rethrown as `new Error(err)` get the message `"Error: " + message`. Examples are `"Error: User exists allready"`, `"Error: No user found"` and `"Error: Wrong Password"`.

## Model

| member | source | states |
|---|---|---|
| JsString.Utf16Length | graphql/resolvers.js:215 | JavaScript's `postId.length` counts UTF-16 code units: at least one and at most two per character, zero only for the empty string |
| JsString.BmpUtf16Length | graphql/resolvers.js:215 | for text in the Basic Multilingual Plane the JavaScript length equals the character count |
| Likes.FindIndex | graphql/resolvers.js:191-193 | `findIndex` returns -1 exactly when the user is absent, and otherwise the first position holding the user |
| Likes.Toggle | graphql/resolvers.js:191-198 | a present user has exactly its first occurrence spliced out (multiset minus one copy); an absent user is appended; every other user's count is unchanged |
| Likes.ToggleKeepsNoDuplicates | graphql/resolvers.js:191-198 | the toggle never introduces a duplicate into a duplicate-free like list |
| Likes.ToggleFlipsMembership | graphql/resolvers.js:191-198 | on a duplicate-free list the requester's membership flips and nobody else's changes |
| Likes.ToggleTwice | graphql/resolvers.js:191-198 | toggling twice restores the set of likers, and restores the list itself when the user was absent |
| Likes.DuplicatesBreakToggleTwice | graphql/resolvers.js:194-195 | the round trip needs a duplicate-free list: splice removes one copy per toggle, so `[u, u]` ends up `[]` |
| Feed.PickNewest | graphql/resolvers.js:129 | returns a candidate post that no other candidate is newer than |
| Feed.SortNewestFirst | graphql/resolvers.js:129 | lists every stored post exactly once with its stored fields, ordered by `createdAt` descending |
| Feed.NewestComment | graphql/resolvers.js:131 | returns a stored comment on the post that no comment on it is newer than, or nothing exactly when the post has no comment |
| Resolvers.SignUpViolations | graphql/resolvers.js:15-27 | each of the four messages is present exactly when its check fails (invalid e-mail; empty first or last name; password shorter than 5; passwords differ), and the messages appear in check order |
| Resolvers.CreateUser | graphql/resolvers.js:13-57 | any violation gives 422 "Invalid Input" with all messages and no store change; a taken e-mail gives 422 with "Email already exists" and no change; success happens exactly otherwise and stores one user with the names, the e-mail and the hash of the password |
| Resolvers.Login | graphql/resolvers.js:58-96 | a malformed e-mail gives 422 before any lookup; an unknown e-mail gives 401; a password that fails the compare gives 401; a success returns a stored user with that e-mail whose hash matches, and a token signed over `{userId, email}` for 3600 seconds; with unique e-mails, login succeeds exactly when the e-mail is valid and the password matches |
| Resolvers.CreatePost | graphql/resolvers.js:97-120 | fails with 422 "Image Required" exactly when `imageUrl` is empty; an empty `imagePublicId` fails the schema's required check; otherwise stores one post owned by `req.userId` with the given fields, no likes, and nothing else changes |
| Resolvers.GetPosts | graphql/resolvers.js:122-147 | an unauthenticated request fails with 401 whatever the store holds; otherwise each stored post appears once, newest first, with its newest comment or none |
| Resolvers.CreateComment | graphql/resolvers.js:148-176 | 401 when unauthenticated, then 404 when the post is missing, both with no change; otherwise it stores a comment with `post = postId`, `author = userId` and the text; the populated author and post are returned when the author is a stored user, and a TypeError is thrown after the save when it is not |
| Resolvers.LikeAPost | graphql/resolvers.js:177-207 | 401, then 404, with no store change; otherwise only that post changes: its likes are toggled for the requester and `updatedAt` becomes now |
| Resolvers.GetSinglePost | graphql/resolvers.js:208-245 | 401 first, then 404 for ids shorter than 24 code units before any lookup, then 404 for a missing post; a success returns the post and exactly the comments on it |
| Resolvers.DeleteAPost | graphql/resolvers.js:246-272 | 401, then 404, then a TypeError for an unresolvable owner, then 401 "Not Authorized" for a non-owner; every failure leaves the store unchanged and issues no destroy; the owner's request removes only that post, issues exactly one destroy for its `imagePublicId`, and returns the pre-deletion post |
| ResolverLaws.SignUpKeepsEmailsUnique | graphql/resolvers.js:36-49 | sign-up preserves the invariant that no two users share an e-mail |
| ResolverLaws.SignUpMakesAccountFindable | graphql/resolvers.js:42-49 | after a sign-up the new account is the only one with its e-mail and it stores the password's hash, which is what `login` looks up and compares |
| ResolverLaws.SecondSignUpFails | graphql/resolvers.js:36-41 | a second sign-up with the same e-mail always fails and stores nothing |
| ResolverLaws.SignUpValidationNeedsNoStore | graphql/resolvers.js:28-33 | invalid sign-up input fails identically for every store, so no lookup precedes the validation error |
| ResolverLaws.CreatePostIgnoresAuthentication | graphql/resolvers.js:97-110 | anonymous and authenticated requests succeed under the same conditions, and an anonymous one stores a post without owner |
| ResolverLaws.LikeFlipsMembership | graphql/resolvers.js:191-200 | in the store, a like flips the requester's membership of that post's likes and nobody else's |
| ResolverLaws.LikeTwiceRestoresLikers | graphql/resolvers.js:177-200 | two likes by the same user restore the post's likers, and restore the post up to `updatedAt` when the user had not liked it; other posts, users and comments are untouched |
| ResolverLaws.CreatePostKeepsLikesSets | graphql/resolvers.js:105-112 | creating a post keeps every like list duplicate-free |
| ResolverLaws.LikeAPostKeepsLikesSets | graphql/resolvers.js:191-200 | liking keeps every like list duplicate-free |
| ResolverLaws.DeleteAPostKeepsLikesSets | graphql/resolvers.js:269 | deleting keeps every like list duplicate-free |
| ResolverLaws.DeletedPostIsGone | graphql/resolvers.js:269 | after the owner's delete, `getSinglePost`, `likeAPost` and `deleteAPost` all fail for that id, and its comments remain |
| ResolverLaws.CreatedPostIsVisible | graphql/resolvers.js:105-112 | a post just created is what `getSinglePost` returns for its id, with no comments |
| ResolverLaws.CreatedCommentIsListed | graphql/resolvers.js:163-170 | a comment just created appears among the comments `getSinglePost` returns for its post |
| ResolverLaws.ShortIdNeedsNoStore | graphql/resolvers.js:215-219 | an id shorter than 24 code units gets the same answer for every store, 404 "Wrong URL" when authenticated |
| ResolverLaws.HexIdsPassLengthCheck | graphql/resolvers.js:215 | a 24-character hex ObjectId always passes the length check |
| ResolverLaws.LikeUnlikeDeleteScenario | graphql/resolvers.js:97-272 | user A posts, user B likes then unlikes (likes go `[B]` then `[]`), B's delete fails with "Not Authorized" and changes nothing, and A's delete removes the post with one destroy of its image |
| ErrorFormat.StatusOf | app.js:43 | the status is the error's code, or 500 when the code is missing or zero; it is never 0 |
| ErrorFormat.MessageOf | app.js:42 | the message is the error's own when non-empty, else "An error occured"; it is never empty |
| ErrorFormat.FormatError | app.js:37-46 | an error with no original error is passed through unchanged; otherwise the result is exactly `{message, status, data}` with `data` taken unchanged from the original error |
| ErrorFormat.ResolverErrorsKeepTheirShape | app.js:37-46 | an error thrown by a resolver reaches the client with its own message, its code as status (500 without one) and its data |
| ErrorFormat.ResolverStatuses | app.js:43 | each resolver error reaches the client with its intended status: 401 for authentication and ownership, 404 for missing posts, 422 for bad input, 500 for the uncoded schema and TypeErrors |
| UploadFilter.FileFilter | middleware/cloudinaryUpload.js:27-31 | never reports an error, and accepts exactly the mimetypes `image/png`, `image/jpg` and `image/jpeg` |
| UploadFilter.VerdictDependsOnMimetypeOnly | middleware/cloudinaryUpload.js:27-30 | two calls with equal mimetypes give the same verdict, whatever the request and the other file fields |
| UploadFilter.AcceptedFilesAreImages | middleware/cloudinaryUpload.js:28-29 | every accepted mimetype starts with `image/` |
| UploadFilter.UpperCaseIsRefused | middleware/cloudinaryUpload.js:28-30 | the comparison is case-sensitive, so `IMAGE/PNG`, `image/PNG` and `IMAGE/JPEG` are refused |

## Left out

- MongoDB and mongoose are modelled only as maps and map updates. The model leaves out ObjectId casting: a malformed id given to `findById` would raise a cast error, and the model treats it as not found. It also leaves out field-exclusion projections on `populate`, and the `_doc` spread and date-to-string conversions of returned documents.
- Fresh ObjectIds are parameters that must not already be keys of the collection (the `newId !in …` requirements). This stands for ObjectId uniqueness; the duplicate-key error that a clash would raise is not modelled.
- The model assumes `bcrypt.hash`, `user.save`, `post.save` and `jwt.sign` never throw. If they did, `createUser` would rethrow with 422, `login` with 401, and the other resolvers without a code. The schema's own required-field validation is modelled only for `imagePublicId`. The sign-up checks already exclude empty names and passwords before the save.
- `bcrypt`, `jwt` and `validator.isEmail` are uninterpreted functions. The model has no cryptography, no real token expiry and no e-mail grammar. The token lifetime is modelled as the 3600 seconds passed to `jwt.sign`.
- Concurrency is out of scope: each request is one sequential step. `likeAPost` is not atomic in the source, but interleavings between requests are not modelled.
- The exact text of the TypeErrors depends on the JavaScript engine. The model uses the wording "Cannot read properties of null (reading '_id')".
- `console.log` in the error formatter is not modelled, because it is only a side effect.
- `app.js` setup is not part of this model: the Express, helmet, morgan and cors middleware, static serving, the `/api/post-image` upload handler, the database connection and `app.listen`. All of these are I/O.
- `middleware/cloudinaryUpload.js` beyond `fileFilter` is not part of this model: `uploader.upload`, `cloudinaryConfig`, `dataUri` and the multer wiring are foreign calls and configuration. `uploader.destroy` is recorded only as a `DestroyAsset` effect. Its outcome is never awaited.
- The authentication middleware (`middleware/auth`) is not part of this model. Its result is the `Auth` input, which assumes the middleware sets `req.userId` exactly when it sets `req.isAuth`. Two combinations are therefore not modelled: `isAuth` false with a `userId` set, under which `createPost` (graphql/resolvers.js:106) would store an owner; and `isAuth` true without a `userId`, under which `req.userId.toString()` (graphql/resolvers.js:261) would throw.
- Resolvers.SignUpViolations counts lengths as `validator.isLength` does in releases that count code points, which is Dafny's `|s|`. Releases that also discount the variation selectors U+FE0E and U+FE0F would refuse a name made only of those characters, which the model accepts. The validator version is not part of this model.
- Returned documents are not populated. The model returns `owner`, `likes` and `author` as ids, where the code returns populated user documents (`createPost`, `getPosts`, `getSinglePost`, `deleteAPost` at graphql/resolvers.js:112, 129, 221 and 253). In `getSinglePost` the populated `likes` would also drop ids that have no stored user.
- Resolvers.GetSinglePost returns the comments as a set, not a sequence, because `Comment.find` has no sort and the database order is unspecified.
