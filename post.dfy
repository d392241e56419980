/** The `Post` schema: a post with its likes and its embedded comments. */
module PostModel {
  import opened Base

  /** One embedded comment; the list keeps the order comments were added. */
  datatype Comment = Comment(user: Id, username: string, text: string, date: nat)

  /** `user` references the author; `username` is the author's name copied
      when the post was written and never refreshed. `date` is a timestamp. */
  datatype Post = Post(
    content: string,
    image: Option<string>,
    user: Id,
    username: string,
    date: nat,
    likes: seq<Id>,
    comments: seq<Comment>)

  /** What every stored post satisfies: the required content is present and
      the likes count each account at most once. */
  predicate WellFormed(p: Post) {
    p.content != "" && NoDuplicates(p.likes)
  }

  /** Building a `Post` document at time `now`: `content` is required, the
      date defaults to `now`, likes and comments start empty. */
  function Create(content: string, image: Option<string>, user: Id, username: string, now: nat): (r: Result<Post>)
    ensures r.Ok? <==> content != ""
    ensures r.Err? ==> r.error == ValidationFailed
    ensures r.Ok? ==> WellFormed(r.value)
    ensures r.Ok? ==> r.value.content == content && r.value.image == image
    ensures r.Ok? ==> r.value.user == user && r.value.username == username && r.value.date == now
    ensures r.Ok? ==> r.value.likes == [] && r.value.comments == []
  {
    if content == "" then Err(ValidationFailed)
    else Ok(Post(content, image, user, username, now, [], []))
  }
}
