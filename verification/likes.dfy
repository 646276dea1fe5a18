/** The like list of a post and the toggle `likeAPost` applies to it
    (graphql/resolvers.js:191-198). */
module Likes {
  import opened Types

  /** No user appears twice: the like list read as a set. */
  predicate NoDuplicates(likes: seq<Id>) {
    forall i, j :: 0 <= i < j < |likes| ==> likes[i] != likes[j]
  }

  /** `likes.findIndex(user => user == u)`: the first position holding `u`,
      or -1 when there is none. */
  function FindIndex(likes: seq<Id>, u: Id): (i: int)
    ensures -1 <= i < |likes|
    ensures i == -1 <==> u !in likes
    ensures 0 <= i ==> likes[i] == u && u !in likes[..i]
  {
    if likes == [] then -1
    else if likes[0] == u then 0
    else
      var j := FindIndex(likes[1..], u);
      if j == -1 then -1
      else
        assert likes[..j + 1] == [likes[0]] + likes[1..][..j];
        j + 1
  }

  /** Unlike when `u` is present (splice out its first occurrence), like
      otherwise (push `u`). */
  function Toggle(likes: seq<Id>, u: Id): (r: seq<Id>)
    ensures u in likes ==>
      exists i :: 0 <= i < |likes| && likes[i] == u && u !in likes[..i] && r == likes[..i] + likes[i + 1..]
    ensures u !in likes ==> r == likes + [u]
    ensures u in likes ==> multiset(r) == multiset(likes) - multiset{u}
    ensures forall v :: v != u ==> multiset(r)[v] == multiset(likes)[v]
  {
    var i := FindIndex(likes, u);
    if i >= 0 then
      assert likes == likes[..i] + [u] + likes[i + 1..];
      likes[..i] + likes[i + 1..]
    else
      likes + [u]
  }

  /** Splicing one position out of a duplicate-free list leaves it duplicate-free. */
  lemma SpliceKeepsNoDuplicates(likes: seq<Id>, i: nat)
    requires NoDuplicates(likes) && i < |likes|
    ensures NoDuplicates(likes[..i] + likes[i + 1..])
  {
    var r := likes[..i] + likes[i + 1..];
    forall a, b | 0 <= a < b < |r|
      ensures r[a] != r[b]
    {
      var a' := if a < i then a else a + 1;
      var b' := if b < i then b else b + 1;
      assert r[a] == likes[a'] && r[b] == likes[b'];
    }
  }

  /** Toggling never puts a second copy of anyone into a duplicate-free list. */
  lemma ToggleKeepsNoDuplicates(likes: seq<Id>, u: Id)
    requires NoDuplicates(likes)
    ensures NoDuplicates(Toggle(likes, u))
  {
    var i := FindIndex(likes, u);
    if i >= 0 {
      SpliceKeepsNoDuplicates(likes, i);
    }
  }

  /** Splicing out one position of a duplicate-free list drops that entry
      entirely. */
  lemma SpliceDropsEntry(likes: seq<Id>, i: nat)
    requires NoDuplicates(likes) && i < |likes|
    ensures likes[i] !in likes[..i] + likes[i + 1..]
  {
    var r := likes[..i] + likes[i + 1..];
    forall k | 0 <= k < |r|
      ensures r[k] != likes[i]
    {
      if k < i {
        assert r[k] == likes[k];
      } else {
        assert r[k] == likes[k + 1];
      }
    }
  }

  /** On a duplicate-free list the toggle flips `u`'s membership and no one else's. */
  lemma ToggleFlipsMembership(likes: seq<Id>, u: Id)
    requires NoDuplicates(likes)
    ensures u in Toggle(likes, u) <==> u !in likes
    ensures forall v :: v != u ==> (v in Toggle(likes, u) <==> v in likes)
  {
    var r := Toggle(likes, u);
    if u in likes {
      var i :| 0 <= i < |likes| && likes[i] == u && u !in likes[..i] && r == likes[..i] + likes[i + 1..];
      SpliceDropsEntry(likes, i);
    }
    forall v | v != u
      ensures v in r <==> v in likes
    {
      assert multiset(r)[v] == multiset(likes)[v];
    }
  }

  /** Liking then unliking, or unliking then liking, restores the set of
      users who like the post; when `u` did not like it the list itself is back. */
  lemma ToggleTwice(likes: seq<Id>, u: Id)
    requires NoDuplicates(likes)
    ensures forall v :: v in Toggle(Toggle(likes, u), u) <==> v in likes
    ensures u !in likes ==> Toggle(Toggle(likes, u), u) == likes
  {
    var once := Toggle(likes, u);
    ToggleFlipsMembership(likes, u);
    ToggleKeepsNoDuplicates(likes, u);
    ToggleFlipsMembership(once, u);
    if u !in likes {
      assert once == likes + [u];
      assert FindIndex(once, u) == |likes| by {
        assert once[|likes|] == u;
        assert once[..|likes|] == likes;
      }
      assert once[..|likes|] == likes;
    }
  }

  /** The round trip needs a duplicate-free list: two copies of `u` are
      removed one toggle at a time. */
  lemma DuplicatesBreakToggleTwice(u: Id)
    ensures Toggle(Toggle([u, u], u), u) == []
    ensures u !in Toggle(Toggle([u, u], u), u)
  {
    assert FindIndex([u, u], u) == 0;
    assert Toggle([u, u], u) == [u];
    assert FindIndex([u], u) == 0;
  }
}
