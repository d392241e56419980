/** The like toggle of `/like/:id`: `includes`, then `pull` (remove every
    occurrence) or `push` (append). */
module Likes {
  import opened Base
  import opened PostModel

  /** `pull`: remove every occurrence of `u`, keeping the others in order. */
  function Pull(s: seq<Id>, u: Id): (r: seq<Id>)
    ensures multiset(r) == multiset(s)[u := 0]
    ensures u !in r
    ensures |r| == |s| - multiset(s)[u]
    ensures u !in s ==> r == s
  {
    if s == [] then []
    else
      assert s == [s[0]] + s[1..];
      if s[0] == u then Pull(s[1..], u) else [s[0]] + Pull(s[1..], u)
  }

  /** `pull` works element by element: it distributes over concatenation,
      which together with `Pull`'s contract fixes the order it keeps. */
  lemma {:induction false} PullAppend(a: seq<Id>, b: seq<Id>, u: Id)
    ensures Pull(a + b, u) == Pull(a, u) + Pull(b, u)
  {
    if a == [] {
      assert a + b == b;
    } else {
      assert (a + b)[1..] == a[1..] + b;
      PullAppend(a[1..], b, u);
    }
  }

  /** One like request by `u`. */
  function Toggle(likes: seq<Id>, u: Id): (r: seq<Id>)
    ensures u in r <==> u !in likes
    ensures forall x :: x != u ==> multiset(r)[x] == multiset(likes)[x]
    ensures u in likes ==> multiset(r)[u] == 0
    ensures u !in likes ==> r == likes + [u]
  {
    if u in likes then Pull(likes, u) else likes + [u]
  }

  /** Liking and unliking again gives back `u`'s membership; if `u` had not
      liked the post, the exact list comes back. */
  lemma ToggleTwice(likes: seq<Id>, u: Id)
    ensures u in Toggle(Toggle(likes, u), u) <==> u in likes
    ensures u !in likes ==> Toggle(Toggle(likes, u), u) == likes
    ensures NoDuplicates(likes) ==> multiset(Toggle(Toggle(likes, u), u)) == multiset(likes)
  {
    if u !in likes {
      PullAppend(likes, [u], u);
      assert Pull([u], u) == [];
      assert likes + [] == likes;
    } else {
      var once := Toggle(likes, u);
      assert u !in once;
      assert Toggle(once, u) == once + [u];
      if NoDuplicates(likes) {
        assert multiset(likes)[u] == 1;
        assert multiset(once + [u]) == multiset(likes);
      }
    }
  }

  /** A duplicate-free like list stays duplicate-free, and its length
      (the like count) moves by exactly one. It follows from `Toggle`'s
      contract alone. */
  lemma ToggleKeepsNoDuplicates(likes: seq<Id>, u: Id)
    requires NoDuplicates(likes)
    ensures NoDuplicates(Toggle(likes, u))
    ensures |Toggle(likes, u)| == if u in likes then |likes| - 1 else |likes| + 1
  {
  }
}
