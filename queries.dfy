/** The database queries the routes issue, over an in-memory store whose
    keys are all below a bound (the next id the generator will hand out).
    A collection's natural order is ascending id, the order of insertion. */
module Queries {
  import opened Base
  import opened UserModel
  import opened PostModel

  /** The two `User.findOne` filters the routes use. */
  datatype Filter = ByUsername(username: string) | ByCredentials(username: string, password: string)

  predicate Matches(a: Account, f: Filter) {
    match f
    case ByUsername(name) => a.username == name
    case ByCredentials(name, password) => a.username == name && a.password == password
  }

  /** `User.findOne(filter)` over the ids below `n`: the first matching
      account in natural order, or none if no account matches. */
  function FindOne(accounts: map<Id, Account>, f: Filter, n: nat): (r: Option<Id>)
    ensures r.Some? ==> r.value < n && r.value in accounts && Matches(accounts[r.value], f)
    ensures r.Some? ==> forall k :: k in accounts && k < r.value ==> !Matches(accounts[k], f)
    ensures r.None? ==> forall k :: k in accounts && k < n ==> !Matches(accounts[k], f)
  {
    if n == 0 then None
    else
      match FindOne(accounts, f, n - 1)
      case Some(k) => Some(k)
      case None => if n - 1 in accounts && Matches(accounts[n - 1], f) then Some(n - 1) else None
  }

  predicate Ascending(s: seq<Id>) {
    forall i, j :: 0 <= i < j < |s| ==> s[i] < s[j]
  }

  /** A list in strictly ascending order names each id once. */
  lemma {:induction false} AscendingHasNoDuplicates(s: seq<Id>)
    requires Ascending(s)
    ensures NoDuplicates(s)
  {
    if s != [] {
      AscendingHasNoDuplicates(s[1..]);
      assert s == [s[0]] + s[1..];
      assert s[0] !in s[1..];
    }
  }

  /** The ids of `m` below `n` in natural order. */
  function KeysBelow<T>(m: map<Id, T>, n: nat): (r: seq<Id>)
    ensures forall k :: k in r <==> k in m && k < n
    ensures forall i :: 0 <= i < |r| ==> r[i] < n
    ensures Ascending(r)
  {
    if n == 0 then []
    else
      var rest := KeysBelow(m, n - 1);
      var last: Id := n - 1;
      if last in m then rest + [last] else rest
  }

  /** Every id in `s` names a post and the posts go newest first:
      the order of `.sort({ date: -1 })`. */
  predicate NewestFirst(posts: map<Id, Post>, s: seq<Id>) {
    && (forall i :: 0 <= i < |s| ==> s[i] in posts)
    && (forall i, j :: 0 <= i < j < |s| ==> posts[s[i]].date >= posts[s[j]].date)
  }

  /** Place `id` before the first post of `s` that is not newer than it. */
  function InsertByDate(posts: map<Id, Post>, id: Id, s: seq<Id>): (r: seq<Id>)
    requires id in posts && NewestFirst(posts, s)
    ensures multiset(r) == multiset(s) + multiset{id}
    ensures NewestFirst(posts, r)
  {
    if s == [] then [id]
    else if posts[s[0]].date <= posts[id].date then [id] + s
    else
      var rest := InsertByDate(posts, id, s[1..]);
      assert s == [s[0]] + s[1..];
      NewerHeadStaysFirst(posts, s[0], s[1..], id, rest);
      [s[0]] + rest
  }

  /** The inductive step of `InsertByDate`: a head newer than the inserted
      post stays in front of the list that received it. */
  lemma NewerHeadStaysFirst(posts: map<Id, Post>, head: Id, tail: seq<Id>, id: Id, rest: seq<Id>)
    requires head in posts && id in posts && NewestFirst(posts, [head] + tail) && NewestFirst(posts, rest)
    requires posts[head].date > posts[id].date
    requires multiset(rest) == multiset(tail) + multiset{id}
    ensures NewestFirst(posts, [head] + rest)
  {
    var s := [head] + tail;
    var r := [head] + rest;
    forall j | 0 <= j < |rest| ensures posts[head].date >= posts[rest[j]].date {
      assert rest[j] in multiset(rest);
      if rest[j] != id {
        assert rest[j] in tail;
        var i :| 0 <= i < |tail| && tail[i] == rest[j];
        assert s[0] == head && s[i + 1] == rest[j];
      }
    }
    forall i, j | 0 <= i < j < |r| ensures posts[r[i]].date >= posts[r[j]].date {
      if i == 0 { assert r[j] == rest[j - 1]; }
      else { assert r[i] == rest[i - 1] && r[j] == rest[j - 1]; }
    }
  }

  /** The database's `.sort({ date: -1 })` of the posts named by `s`. */
  function SortNewestFirst(posts: map<Id, Post>, s: seq<Id>): (r: seq<Id>)
    requires forall i :: 0 <= i < |s| ==> s[i] in posts
    ensures multiset(r) == multiset(s)
    ensures NewestFirst(posts, r)
  {
    if s == [] then []
    else
      assert s == [s[0]] + s[1..];
      InsertByDate(posts, s[0], SortNewestFirst(posts, s[1..]))
  }

  /** `Post.find().sort({ date: -1 })`: every post exactly once, newest first. */
  function Feed(posts: map<Id, Post>, bound: nat): (r: seq<Id>)
    requires forall k :: k in posts ==> k < bound
    ensures forall k :: k in r <==> k in posts
    ensures NoDuplicates(r)
    ensures NewestFirst(posts, r)
  {
    var keys := KeysBelow(posts, bound);
    AscendingHasNoDuplicates(keys);
    var r := SortNewestFirst(posts, keys);
    assert forall k :: k in r <==> k in multiset(keys);
    r
  }

  /** The posts whose `user` reference is `author`. */
  function ByAuthor(posts: map<Id, Post>, author: Id): map<Id, Post> {
    map k | k in posts && posts[k].user == author :: posts[k]
  }

  /** `Post.find({ user: author }).sort({ date: -1 })`: exactly the posts of
      `author`, each once, newest first. */
  function ProfileFeed(posts: map<Id, Post>, bound: nat, author: Id): (r: seq<Id>)
    requires forall k :: k in posts ==> k < bound
    ensures forall k :: k in r <==> k in posts && posts[k].user == author
    ensures NoDuplicates(r)
    ensures NewestFirst(posts, r)
  {
    var mine := ByAuthor(posts, author);
    var r := Feed(mine, bound);
    assert forall i :: 0 <= i < |r| ==> r[i] in mine;
    r
  }

  /** `User.find({ isApproved: false })`: the accounts waiting for approval,
      in natural order. */
  function Pending(accounts: map<Id, Account>, bound: nat): (r: seq<Id>)
    requires forall k :: k in accounts ==> k < bound
    ensures forall k :: k in r <==> k in accounts && !accounts[k].isApproved
    ensures Ascending(r)
  {
    KeysBelow(map k | k in accounts && !accounts[k].isApproved :: accounts[k], bound)
  }

  /** `User.find({ isApproved: true, isAdmin: false })`: the approved
      accounts that are not administrators, in natural order. */
  function Active(accounts: map<Id, Account>, bound: nat): (r: seq<Id>)
    requires forall k :: k in accounts ==> k < bound
    ensures forall k :: k in r <==> k in accounts && accounts[k].isApproved && !accounts[k].isAdmin
    ensures Ascending(r)
  {
    KeysBelow(map k | k in accounts && accounts[k].isApproved && !accounts[k].isAdmin :: accounts[k], bound)
  }
}
