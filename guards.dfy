/** The two route guards and the ownership test of the delete route. */
module Guards {
  import opened Base
  import opened PostModel

  /** `requireLogin`: a handler runs only for a session that carries a user
      id; otherwise the request is turned away as unauthenticated. */
  function RequireLogin(s: Option<Session>): (r: Result<Session>)
    ensures r.Ok? <==> s.Some?
    ensures r.Ok? ==> s == Some(r.value)
    ensures r.Err? ==> r.error == Unauthenticated
  {
    match s
    case None => Err(Unauthenticated)
    case Some(p) => Ok(p)
  }

  /** `requireLogin` followed by `requireAdmin`, as on every admin route: the
      two failures stay distinct. */
  function RequireAdmin(s: Option<Session>): (r: Result<Session>)
    ensures r.Ok? <==> s.Some? && s.value.isAdmin
    ensures r == Err(Unauthenticated) <==> s.None?
    ensures r == Err(Forbidden) <==> s.Some? && !s.value.isAdmin
    ensures r.Ok? ==> s == Some(r.value)
  {
    match RequireLogin(s)
    case Err(e) => Err(e)
    case Ok(p) => if p.isAdmin then Ok(p) else Err(Forbidden)
  }

  /** The delete route's test: an administrator may delete any post, anyone
      else only a post whose author is the session's user. */
  function MayDelete(principal: Session, post: Post): (ok: bool)
    ensures principal.isAdmin ==> ok
    ensures post.user == principal.userId ==> ok
    ensures ok && !principal.isAdmin ==> post.user == principal.userId
  {
    principal.isAdmin || post.user == principal.userId
  }
}
