/** The queries behind the post feed of `getPosts`
    (graphql/resolvers.js:128-135): all posts sorted by `createdAt`
    descending, and for each the newest comment on it. The database's order
    among equal timestamps is unspecified, so these are methods that may
    break ties either way. */
module Feed {
  import opened Types

  /** No id is listed twice. */
  predicate DistinctIds(ordered: seq<Doc<Post>>) {
    forall i, j :: 0 <= i < j < |ordered| ==> ordered[i].id != ordered[j].id
  }

  /** Every post of `posts` appears exactly once in `ordered`, with its stored fields. */
  predicate ListsEachPostOnce(posts: map<Id, Post>, ordered: seq<Doc<Post>>) {
    && |ordered| == |posts|
    && (forall i :: 0 <= i < |ordered| ==> ordered[i].id in posts && ordered[i].body == posts[ordered[i].id])
    && DistinctIds(ordered)
    && (forall k :: k in posts ==> exists i :: 0 <= i < |ordered| && ordered[i].id == k)
  }

  /** `sort({ createdAt: -1 })`: no post is older than one after it. */
  predicate NewestFirst(ordered: seq<Doc<Post>>) {
    forall i, j :: 0 <= i < j < |ordered| ==> ordered[i].body.createdAt >= ordered[j].body.createdAt
  }

  /** `r` is what `Comment.findOne().sort({ createdAt: -1 }).where('post').equals(postId)`
      may return: a stored comment on `postId` that no comment on it is newer
      than, or nothing when the post has no comments. */
  predicate IsNewestComment(comments: map<Id, Comment>, postId: Id, r: Option<Doc<Comment>>) {
    match r
    case None => forall k :: k in comments ==> comments[k].post != postId
    case Some(d) =>
      && d.id in comments && comments[d.id] == d.body && d.body.post == postId
      && forall k :: k in comments && comments[k].post == postId ==> comments[k].createdAt <= d.body.createdAt
  }

  /** A post among `candidates` that none of them is newer than. */
  method PickNewest(posts: map<Id, Post>, candidates: set<Id>) returns (k: Id)
    requires candidates != {} && candidates <= posts.Keys
    ensures k in candidates
    ensures forall c :: c in candidates ==> posts[c].createdAt <= posts[k].createdAt
  {
    k :| k in candidates;
    var rest := candidates - {k};
    while rest != {}
      invariant rest <= candidates && k in candidates
      invariant forall c :: c in candidates && c !in rest ==> posts[c].createdAt <= posts[k].createdAt
      decreases rest
    {
      var c :| c in rest;
      if posts[c].createdAt > posts[k].createdAt {
        k := c;
      }
      rest := rest - {c};
    }
  }

  /** Each listed post is stored, with its stored fields, and no longer remaining. */
  predicate Listed(posts: map<Id, Post>, remaining: set<Id>, ordered: seq<Doc<Post>>) {
    forall i :: 0 <= i < |ordered| ==>
      ordered[i].id in posts && ordered[i].id !in remaining && ordered[i].body == posts[ordered[i].id]
  }

  /** Every stored post no longer remaining is listed. */
  predicate Covers(posts: map<Id, Post>, remaining: set<Id>, ordered: seq<Doc<Post>>) {
    forall k :: k in posts && k !in remaining ==> exists i :: 0 <= i < |ordered| && ordered[i].id == k
  }

  /** No remaining post is newer than a listed one. */
  predicate NoNewerRemaining(posts: map<Id, Post>, remaining: set<Id>, ordered: seq<Doc<Post>>)
    requires remaining <= posts.Keys
  {
    forall i, k :: 0 <= i < |ordered| && k in remaining ==> ordered[i].body.createdAt >= posts[k].createdAt
  }

  /** The state of the selection sort below: `ordered` lists, newest first,
      exactly the posts outside `remaining`, each once, none older than a
      post still remaining. */
  predicate SortedSoFar(posts: map<Id, Post>, remaining: set<Id>, ordered: seq<Doc<Post>>) {
    && remaining <= posts.Keys
    && |ordered| + |remaining| == |posts|
    && Listed(posts, remaining, ordered)
    && DistinctIds(ordered)
    && Covers(posts, remaining, ordered)
    && NewestFirst(ordered)
    && NoNewerRemaining(posts, remaining, ordered)
  }

  lemma ListedStep(posts: map<Id, Post>, remaining: set<Id>, ordered: seq<Doc<Post>>, k: Id)
    requires Listed(posts, remaining, ordered) && k in remaining && remaining <= posts.Keys
    ensures Listed(posts, remaining - {k}, ordered + [Doc(k, posts[k])])
    ensures DistinctIds(ordered) ==> DistinctIds(ordered + [Doc(k, posts[k])])
  {
  }

  lemma CoversStep(posts: map<Id, Post>, remaining: set<Id>, ordered: seq<Doc<Post>>, k: Id)
    requires Covers(posts, remaining, ordered) && k in posts
    ensures Covers(posts, remaining - {k}, ordered + [Doc(k, posts[k])])
  {
    var ordered' := ordered + [Doc(k, posts[k])];
    forall k' | k' in posts && k' !in remaining - {k}
      ensures exists i :: 0 <= i < |ordered'| && ordered'[i].id == k'
    {
      if k' == k {
        assert ordered'[|ordered|].id == k';
      } else {
        var i :| 0 <= i < |ordered| && ordered[i].id == k';
        assert ordered'[i].id == k';
      }
    }
  }

  lemma OrderStep(posts: map<Id, Post>, remaining: set<Id>, ordered: seq<Doc<Post>>, k: Id)
    requires remaining <= posts.Keys && k in remaining
    requires NewestFirst(ordered) && NoNewerRemaining(posts, remaining, ordered)
    requires forall c :: c in remaining ==> posts[c].createdAt <= posts[k].createdAt
    ensures NewestFirst(ordered + [Doc(k, posts[k])])
    ensures NoNewerRemaining(posts, remaining - {k}, ordered + [Doc(k, posts[k])])
  {
  }

  /** Moving the newest remaining post to the end of `ordered` keeps the sort's state. */
  lemma SortStep(posts: map<Id, Post>, remaining: set<Id>, ordered: seq<Doc<Post>>, k: Id)
    requires SortedSoFar(posts, remaining, ordered)
    requires k in remaining
    requires forall c :: c in remaining ==> posts[c].createdAt <= posts[k].createdAt
    ensures SortedSoFar(posts, remaining - {k}, ordered + [Doc(k, posts[k])])
  {
    assert |remaining - {k}| == |remaining| - 1;
    ListedStep(posts, remaining, ordered, k);
    CoversStep(posts, remaining, ordered, k);
    OrderStep(posts, remaining, ordered, k);
  }

  /** `Post.find().sort({ createdAt: -1 })`, by repeatedly taking the newest
      post not yet listed. */
  method SortNewestFirst(posts: map<Id, Post>) returns (ordered: seq<Doc<Post>>)
    ensures ListsEachPostOnce(posts, ordered)
    ensures NewestFirst(ordered)
  {
    ordered := [];
    var remaining := posts.Keys;
    while remaining != {}
      invariant SortedSoFar(posts, remaining, ordered)
      decreases remaining
    {
      var k := PickNewest(posts, remaining);
      SortStep(posts, remaining, ordered, k);
      ordered := ordered + [Doc(k, posts[k])];
      remaining := remaining - {k};
    }
  }

  /** The newest comment on `postId`, or nothing. */
  method NewestComment(comments: map<Id, Comment>, postId: Id) returns (r: Option<Doc<Comment>>)
    ensures IsNewestComment(comments, postId, r)
  {
    r := None;
    var rest := comments.Keys;
    while rest != {}
      invariant rest <= comments.Keys
      invariant r.Some? ==> r.value.id in comments && r.value.id !in rest && comments[r.value.id] == r.value.body && r.value.body.post == postId
      invariant r.None? ==> forall k :: k in comments && k !in rest ==> comments[k].post != postId
      invariant r.Some? ==> forall k :: k in comments && k !in rest && comments[k].post == postId ==>
        comments[k].createdAt <= r.value.body.createdAt
      decreases rest
    {
      var k :| k in rest;
      if comments[k].post == postId && (r.None? || comments[k].createdAt > r.value.body.createdAt) {
        r := Some(Doc(k, comments[k]));
      }
      rest := rest - {k};
    }
  }
}
