/** The route handlers of the server over an in-memory database: the `User`
    and `Post` collections as maps from id to document, the id generator,
    and the one browser session the handlers read and write. */
module App {
  import opened Base
  import opened UserModel
  import opened PostModel
  import Guards
  import Queries
  import Likes
  import Seed

  /** What the upload middleware hands the `/posting` handler. */
  datatype Upload = NoFile | Stored(filename: string) | UploadError {
    /** `req.file ? req.file.filename : null` */
    function Image(): (r: Option<string>)
      ensures r.Some? <==> Stored?
      ensures r.Some? ==> r.value == filename
    {
      match this
      case Stored(f) => Some(f)
      case _ => None
    }
  }

  /** What the database keeps true between requests: every id was handed
      out by the generator and names one document, usernames are unique, every document passed its
      schema, and no like list counts an account twice. */
  ghost predicate Consistent(accounts: map<Id, Account>, posts: map<Id, Post>, nextId: nat) {
    && (forall k :: k in accounts ==> k < nextId)
    && (forall k :: k in posts ==> k < nextId)
    && accounts.Keys !! posts.Keys
    && UniqueUsernames(accounts)
    && (forall k :: k in accounts ==> HasRequired(accounts[k]))
    && (forall k :: k in posts ==> WellFormed(posts[k]))
  }

  class Server {
    var accounts: map<Id, Account>
    var posts: map<Id, Post>
    var nextId: nat
    var session: Option<Session>

    ghost predicate Valid()
      reads this
    {
      Consistent(accounts, posts, nextId)
    }

    /** Process start over an existing database: no session, then the seed. */
    constructor (accounts0: map<Id, Account>, posts0: map<Id, Post>, nextId0: nat)
      requires Consistent(accounts0, posts0, nextId0)
      ensures Valid()
      ensures (accounts, nextId) == Seed.SeedOwner(accounts0, nextId0)
      ensures posts == posts0 && session == None
      ensures exists k :: k in accounts && accounts[k].username == Seed.OwnerName
      ensures forall k :: k in accounts && accounts[k].username == Seed.OwnerName ==> Seed.IsOwnerRecord(accounts[k])
    {
      accounts, posts, nextId, session := accounts0, posts0, nextId0, None;
      new;
      SeedOwner();
    }

    /** `seedOwner`: update the first account named "shubham", or insert it. */
    method SeedOwner()
      requires Valid()
      modifies this`accounts, this`nextId
      ensures Valid()
      ensures (accounts, nextId) == Seed.SeedOwner(old(accounts), old(nextId))
      ensures exists k :: k in accounts && accounts[k].username == Seed.OwnerName
      ensures forall k :: k in accounts && accounts[k].username == Seed.OwnerName ==> Seed.IsOwnerRecord(accounts[k])
      ensures forall k :: k in old(accounts) && old(accounts)[k].username != Seed.OwnerName ==>
                k in accounts && accounts[k] == old(accounts)[k]
    {
      Seed.SeedOwnerReady(accounts, nextId);
      var found := Queries.FindOne(accounts, Queries.ByUsername(Seed.OwnerName), nextId);
      match found {
        case Some(k) =>
          accounts := accounts[k := Seed.Promote(accounts[k])];
        case None =>
          accounts := accounts[nextId := Seed.Owner];
          nextId := nextId + 1;
      }
    }

    /** POST /login */
    method Login(username: string, password: string) returns (r: Result<Session>)
      requires Valid()
      modifies this`session
      ensures Valid()
      ensures r == Err(InvalidCredentials) <==>
                !exists k :: k in accounts && accounts[k].username == username && accounts[k].password == password
      ensures r == Err(AccountPending) <==>
                exists k :: k in accounts && accounts[k].username == username && accounts[k].password == password
                            && !accounts[k].isApproved
      ensures r.Ok? <==>
                exists k :: k in accounts && accounts[k].username == username && accounts[k].password == password
                            && accounts[k].isApproved
      ensures r.Ok? ==> var k := r.value.userId;
                k in accounts && accounts[k].username == username && accounts[k].password == password
                && r.value == Session(k, accounts[k].username, accounts[k].isAdmin)
                && session == Some(r.value)
      ensures r.Err? ==> session == old(session)
    {
      var found := Queries.FindOne(accounts, Queries.ByCredentials(username, password), nextId);
      match found {
        case None =>
          r := Err(InvalidCredentials);
        case Some(k) =>
          var user := accounts[k];
          if !user.isApproved {
            r := Err(AccountPending);
          } else {
            session := Some(Session(k, user.username, user.isAdmin));
            r := Ok(session.value);
          }
      }
    }

    /** POST /register */
    method Register(username: string, password: string, fullName: Option<string>,
                    collegeId: Option<string>, mobile: Option<string>) returns (r: Result<Id>)
      requires Valid()
      modifies this`accounts, this`nextId
      ensures Valid()
      ensures r == Err(UsernameTaken) <==> exists k :: k in old(accounts) && old(accounts)[k].username == username
      ensures r == Err(ValidationFailed) <==>
                (forall k :: k in old(accounts) ==> old(accounts)[k].username != username)
                && (username == "" || password == "")
      ensures r.Err? ==> r.error == UsernameTaken || r.error == ValidationFailed
      ensures r.Err? ==> accounts == old(accounts) && nextId == old(nextId)
      ensures r.Ok? ==>
                r.value !in old(accounts)
                && accounts == old(accounts)[r.value := Account(username, password, fullName, collegeId, mobile, false, false)]
    {
      var existing := Queries.FindOne(accounts, Queries.ByUsername(username), nextId);
      if existing.Some? {
        r := Err(UsernameTaken);
        return;
      }
      var doc := UserModel.Create(username, password, fullName, collegeId, mobile, Some(false), Some(false));
      match doc {
        case Err(e) =>
          r := Err(e);
        case Ok(user) =>
          accounts := accounts[nextId := user];
          r := Ok(nextId);
          nextId := nextId + 1;
      }
    }

    /** /logout */
    method Logout()
      requires Valid()
      modifies this`session
      ensures Valid()
      ensures session == None
    {
      session := None;
    }

    /** GET /: every post, each once, newest first. */
    method Home() returns (r: Result<seq<Id>>)
      requires Valid()
      ensures r.Err? <==> session.None?
      ensures r.Err? ==> r.error == Unauthenticated
      ensures r.Ok? ==> (forall k :: k in r.value <==> k in posts)
                        && NoDuplicates(r.value) && Queries.NewestFirst(posts, r.value)
    {
      var principal := Guards.RequireLogin(session);
      if principal.Err? {
        return Err(principal.error);
      }
      r := Ok(Queries.Feed(posts, nextId));
    }

    /** POST /posting: the new post is stamped with the session's user. */
    method Posting(content: string, upload: Upload, now: nat) returns (r: Result<Id>)
      requires Valid()
      modifies this`posts, this`nextId
      ensures Valid()
      ensures session.None? ==> r == Err(Unauthenticated)
      ensures session.Some? && upload.UploadError? ==> r == Err(UploadFailed)
      ensures session.Some? && !upload.UploadError? ==> (r.Err? <==> content == "")
      ensures r.Err? ==> posts == old(posts) && nextId == old(nextId)
      ensures r.Ok? ==>
                session.Some? && r.value !in old(posts)
                && posts == old(posts)[r.value := Post(content, upload.Image(), session.value.userId,
                                                       session.value.username, now, [], [])]
    {
      var principal := Guards.RequireLogin(session);
      if principal.Err? {
        return Err(principal.error);
      }
      if upload.UploadError? {
        return Err(UploadFailed);
      }
      var p := principal.value;
      var doc := PostModel.Create(content, upload.Image(), p.userId, p.username, now);
      match doc {
        case Err(e) =>
          r := Err(e);
        case Ok(post) =>
          posts := posts[nextId := post];
          r := Ok(nextId);
          nextId := nextId + 1;
      }
    }

    /** /delete/:id: an administrator's delete never reads the post it
        looked up, so it removes any id; anyone else needs the post to exist
        and to be its author. */
    method Delete(id: Id) returns (r: Result<()>)
      requires Valid()
      modifies this`posts
      ensures Valid()
      ensures session.None? ==> r == Err(Unauthenticated)
      ensures session.Some? ==>
                (r.Ok? <==> session.value.isAdmin || (id in old(posts) && old(posts)[id].user == session.value.userId))
      ensures r == Err(NotFound) <==> session.Some? && !session.value.isAdmin && id !in old(posts)
      ensures r == Err(Forbidden) <==>
                session.Some? && !session.value.isAdmin && id in old(posts) && old(posts)[id].user != session.value.userId
      ensures r.Ok? ==> posts == old(posts) - {id}
      ensures r.Err? ==> posts == old(posts)
    {
      var principal := Guards.RequireLogin(session);
      if principal.Err? {
        return Err(principal.error);
      }
      var p := principal.value;
      if p.isAdmin {
        posts := posts - {id};
        return Ok(());
      }
      if id !in posts {
        return Err(NotFound);
      }
      if Guards.MayDelete(p, posts[id]) {
        posts := posts - {id};
        r := Ok(());
      } else {
        r := Err(Forbidden);
      }
    }

    /** /like/:id: toggle the session user's like; the result says whether
        the user likes the post afterwards. */
    method Like(id: Id) returns (r: Result<bool>)
      requires Valid()
      modifies this`posts
      ensures Valid()
      ensures session.None? ==> r == Err(Unauthenticated)
      ensures session.Some? ==> (r == Err(NotFound) <==> id !in old(posts))
      ensures r.Ok? <==> session.Some? && id in old(posts)
      ensures r.Err? ==> posts == old(posts)
      ensures r.Ok? ==>
                session.Some? && id in old(posts)
                && var u, p := session.value.userId, old(posts)[id];
                   posts == old(posts)[id := p.(likes := Likes.Toggle(p.likes, u))]
                   && (r.value <==> u !in p.likes)
    {
      var principal := Guards.RequireLogin(session);
      if principal.Err? {
        return Err(principal.error);
      }
      if id !in posts {
        return Err(NotFound);
      }
      var u := principal.value.userId;
      var post := posts[id];
      var likes := post.likes;
      var liked: bool;
      if u in likes {
        likes := Likes.Pull(likes, u);
        liked := false;
      } else {
        likes := likes + [u];
        liked := true;
      }
      Likes.ToggleKeepsNoDuplicates(post.likes, u);
      posts := posts[id := post.(likes := likes)];
      r := Ok(liked);
    }

    /** GET /profile: the session user's own posts, each once, newest first. */
    method Profile() returns (r: Result<seq<Id>>)
      requires Valid()
      ensures r.Err? <==> session.None?
      ensures r.Err? ==> r.error == Unauthenticated
      ensures r.Ok? ==> (forall k :: k in r.value <==> k in posts && posts[k].user == session.value.userId)
                        && NoDuplicates(r.value) && Queries.NewestFirst(posts, r.value)
    {
      var principal := Guards.RequireLogin(session);
      if principal.Err? {
        return Err(principal.error);
      }
      r := Ok(Queries.ProfileFeed(posts, nextId, principal.value.userId));
    }

    /** GET /admin: the pending accounts and the active non-admin accounts. */
    method Admin() returns (r: Result<(seq<Id>, seq<Id>)>)
      requires Valid()
      ensures r == Err(Unauthenticated) <==> session.None?
      ensures r == Err(Forbidden) <==> session.Some? && !session.value.isAdmin
      ensures r.Ok? <==> session.Some? && session.value.isAdmin
      ensures r.Ok? ==> var (pending, active) := r.value;
                (forall k :: k in pending <==> k in accounts && !accounts[k].isApproved)
                && (forall k :: k in active <==> k in accounts && accounts[k].isApproved && !accounts[k].isAdmin)
                && (forall k :: !(k in pending && k in active))
                && Queries.Ascending(pending) && Queries.Ascending(active)
    {
      var principal := Guards.RequireAdmin(session);
      if principal.Err? {
        return Err(principal.error);
      }
      r := Ok((Queries.Pending(accounts, nextId), Queries.Active(accounts, nextId)));
    }

    /** POST /admin/approve/:id: an unknown id is ignored. */
    method Approve(id: Id) returns (r: Result<()>)
      requires Valid()
      modifies this`accounts
      ensures Valid()
      ensures r == Err(Unauthenticated) <==> session.None?
      ensures r == Err(Forbidden) <==> session.Some? && !session.value.isAdmin
      ensures r.Ok? <==> session.Some? && session.value.isAdmin
      ensures r.Err? ==> accounts == old(accounts)
      ensures r.Ok? ==> accounts == if id in old(accounts)
                                    then old(accounts)[id := old(accounts)[id].(isApproved := true)]
                                    else old(accounts)
    {
      var principal := Guards.RequireAdmin(session);
      if principal.Err? {
        return Err(principal.error);
      }
      if id in accounts {
        accounts := accounts[id := accounts[id].(isApproved := true)];
      }
      r := Ok(());
    }
  }
}

/** A client of the routes: a new account cannot log in until the owner
    approves it; then it posts, likes its post and takes the like back. */
module Walkthrough {
  import opened Base
  import opened UserModel
  import opened PostModel
  import opened App
  import Seed

  method AliceWalkthrough(now: nat)
  {
    var server := new Server(map[], map[], 0);
    assert server.accounts == map[0 := Seed.Owner];
    assert "alice" != Seed.OwnerName;
    assert forall k :: k in server.accounts ==> server.accounts[k].username != "alice";

    var reg := server.Register("alice", "pw1", None, None, None);
    assert reg.Ok?;
    var alice := reg.value;
    assert server.accounts[alice].username == "alice";

    var first := server.Login("alice", "pw1");
    assert first == Err(AccountPending);

    var owner := server.Login("shubham", "123");
    assert server.accounts[0].username == "shubham";
    assert owner.Ok? && server.session.value.isAdmin;
    var approved := server.Approve(alice);
    assert approved.Ok? && server.accounts[alice].isApproved;

    var second := server.Login("alice", "pw1");
    assert second.Ok? && server.session == Some(Session(alice, "alice", false));

    var posted := server.Posting("hello", NoFile, now);
    assert posted.Ok?;
    var post := posted.value;
    assert server.posts[post].likes == [];

    var like := server.Like(post);
    assert like == Ok(true) && |server.posts[post].likes| == 1;
    var unlike := server.Like(post);
    assert unlike == Ok(false) && |server.posts[post].likes| == 0;

    var gone := server.Delete(post);
    assert gone.Ok? && post !in server.posts;
  }
}
