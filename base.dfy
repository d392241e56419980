/** Types shared by every part of the model: identifiers, optional values,
    the error kinds a route handler can end in, and the session record. */
module Base {

  /** A document identifier (a MongoDB ObjectId). Accounts and posts draw
      them from one generator, so an id never names two documents. */
  type Id = nat

  datatype Option<T> = None | Some(value: T)

  /** No id occurs twice in the list. */
  predicate NoDuplicates(s: seq<Id>) {
    forall x :: x in s ==> multiset(s)[x] <= 1
  }

  /** The ways a route handler can end without doing its work. */
  datatype Error =
    | Unauthenticated     // `requireLogin` redirected to /login
    | Forbidden           // `requireAdmin` redirected to /, or delete by a non-owner
    | InvalidCredentials  // no account has this username and password
    | AccountPending      // the account exists but is not approved yet
    | UsernameTaken       // registration of a username already in use
    | ValidationFailed    // the schema rejected the document (a required field is empty)
    | UploadFailed        // the upload middleware reported an error
    | NotFound            // the handler dereferenced a post id with no post

  datatype Result<T> = Ok(value: T) | Err(error: Error)

  /** What the session store keeps for a logged-in browser. */
  datatype Session = Session(userId: Id, username: string, isAdmin: bool)
}
