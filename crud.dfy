/**
 * The rules crud.py wraps around the database: lookups, registration and
 * login, bearer-token resolution, and the post operations guarded by
 * uniqueness and ownership. The database session becomes the `Store` class;
 * each crud function becomes a method that returns either a value or the
 * HTTP status it raises, and changes the tables accordingly.
 */
module Crud {
  import opened Models

  /**
   * The statuses crud.py raises. `InternalServerError` stands for an
   * exception crud.py does not catch (the web framework answers 500).
   */
  datatype Status =
    | BadRequest
    | Unauthorized
    | Forbidden
    | NotFound
    | Conflict
    | UnprocessableEntity
    | InternalServerError
  {
    function Code(): int {
      match this
      case BadRequest => 400
      case Unauthorized => 401
      case Forbidden => 403
      case NotFound => 404
      case Conflict => 409
      case UnprocessableEntity => 422
      case InternalServerError => 500
    }
  }

  datatype Result<+T> = Ok(value: T) | Err(status: Status)

  /** The registration request body (`schemas.UserCreate`). */
  datatype UserCreate = UserCreate(username: string, email: string, fullName: Option<string>, password: string)

  /** The post request body (`schemas.PostCreate`). */
  datatype PostCreate = PostCreate(title: string, content: string)

  /**
   * What the external email verifier says of an address: valid, not valid,
   * or the call raised (a connection timeout or an unexpected reply).
   */
  datatype EmailVerdict = EmailValid | EmailInvalid | VerifierFailed

  /** `authenticate_user` returns the user, or `False` on a wrong password. */
  datatype AuthResult = Authenticated(user: User) | WrongPassword

  /** The window `skip .. skip + limit` of `rows`, as SQL OFFSET and LIMIT select it. */
  function Page<T>(rows: seq<T>, skip: nat, limit: nat): (page: seq<T>)
    ensures |page| == if skip >= |rows| then 0 else if limit < |rows| - skip then limit else |rows| - skip
    ensures forall i :: 0 <= i < |page| ==> page[i] == rows[skip + i]
  {
    if skip >= |rows| then []
    else if limit < |rows| - skip then rows[skip..skip + limit]
    else rows[skip..]
  }

  /** The keys in `keys` below `n`, smallest first. */
  function IdsBelow(keys: set<Id>, n: nat): seq<Id>
  {
    if n == 0 then [] else IdsBelow(keys, n - 1) + (if n - 1 in keys then [n - 1] else [])
  }

  lemma {:induction false} IdsBelowAscending(keys: set<Id>, n: nat)
    ensures forall k :: k in IdsBelow(keys, n) <==> k in keys && k < n
    ensures forall i, j :: 0 <= i < j < |IdsBelow(keys, n)| ==> IdsBelow(keys, n)[i] < IdsBelow(keys, n)[j]
  {
    if n > 0 {
      var prefix := IdsBelow(keys, n - 1);
      IdsBelowAscending(keys, n - 1);
      assert forall i :: 0 <= i < |prefix| ==> prefix[i] < n - 1 by {
        forall i | 0 <= i < |prefix| ensures prefix[i] < n - 1 {
          assert prefix[i] in prefix;
        }
      }
    }
  }

  /** The rows of a table whose keys are below `bound`, in ascending key order. */
  function InIdOrder<T>(table: map<Id, T>, bound: nat): seq<T>
  {
    var ids := IdsBelow(table.Keys, bound);
    IdsBelowAscending(table.Keys, bound);
    seq(|ids|, i requires 0 <= i < |ids| => table[ids[i]])
  }

  /**
   * When every key is below `bound`, the listing holds the row of every key
   * exactly once, at the position of its key in the ascending key order.
   */
  lemma InIdOrderListsTable<T>(table: map<Id, T>, bound: nat)
    requires forall k :: k in table ==> k < bound
    ensures |InIdOrder(table, bound)| == |IdsBelow(table.Keys, bound)|
    ensures forall k :: k in table <==> k in IdsBelow(table.Keys, bound)
    ensures forall i, j :: 0 <= i < j < |IdsBelow(table.Keys, bound)| ==> IdsBelow(table.Keys, bound)[i] < IdsBelow(table.Keys, bound)[j]
    ensures forall i :: 0 <= i < |InIdOrder(table, bound)| ==> InIdOrder(table, bound)[i] == table[IdsBelow(table.Keys, bound)[i]]
  {
    IdsBelowAscending(table.Keys, bound);
  }

  /**
   * The listing `get_posts` pages through holds every stored post and
   * nothing else, in strictly ascending id order.
   */
  lemma PostsListedInIdOrder(db: Database)
    requires Consistent(db)
    ensures forall p :: p in InIdOrder(db.posts, db.nextPostId) <==> p in db.posts.Values
    ensures forall i, j :: 0 <= i < j < |InIdOrder(db.posts, db.nextPostId)| ==>
              InIdOrder(db.posts, db.nextPostId)[i].id < InIdOrder(db.posts, db.nextPostId)[j].id
  {
    var rows, ids := InIdOrder(db.posts, db.nextPostId), IdsBelow(db.posts.Keys, db.nextPostId);
    InIdOrderListsTable(db.posts, db.nextPostId);
    forall p | p in db.posts.Values ensures p in rows {
      var k :| k in db.posts && db.posts[k] == p;
      var i :| 0 <= i < |ids| && ids[i] == k;
      assert rows[i] == p;
    }
  }

  /**
   * The listing `get_users` pages through holds every stored user and
   * nothing else, in strictly ascending id order.
   */
  lemma UsersListedInIdOrder(db: Database)
    requires Consistent(db)
    ensures forall u :: u in InIdOrder(db.users, db.nextUserId) <==> u in db.users.Values
    ensures forall i, j :: 0 <= i < j < |InIdOrder(db.users, db.nextUserId)| ==>
              InIdOrder(db.users, db.nextUserId)[i].id < InIdOrder(db.users, db.nextUserId)[j].id
  {
    var rows, ids := InIdOrder(db.users, db.nextUserId), IdsBelow(db.users.Keys, db.nextUserId);
    InIdOrderListsTable(db.users, db.nextUserId);
    forall u | u in db.users.Values ensures u in rows {
      var k :| k in db.users && db.users[k] == u;
      var i :| 0 <= i < |ids| && ids[i] == k;
      assert rows[i] == u;
    }
  }

  /** Liking is a toggle: the pair `l` flips, every other pair stays as it was. */
  function Toggled(likes: set<Like>, l: Like): (r: set<Like>)
    ensures l in r <==> l !in likes
    ensures forall m :: m != l ==> (m in r <==> m in likes)
  {
    if l in likes then likes - {l} else likes + {l}
  }

  /** Toggling the same pair twice restores the like set. */
  lemma ToggledTwice(likes: set<Like>, l: Like)
    ensures Toggled(Toggled(likes, l), l) == likes
  {
  }

  /** The database session: the three tables and their key generators. */
  class Store {
    var users: map<Id, User>
    var posts: map<Id, Post>
    var likes: set<Like>
    var nextUserId: Id
    var nextPostId: Id

    ghost function State(): Database
      reads this
    {
      Database(users, posts, likes, nextUserId, nextPostId)
    }

    ghost predicate Valid()
      reads this
    {
      Consistent(State())
    }

    /** An empty database. */
    constructor ()
      ensures Valid()
      ensures users == map[] && posts == map[] && likes == {}
    {
      users, posts, likes := map[], map[], {};
      nextUserId, nextPostId := 1, 1;
    }

    /** `get_user`: the user with primary key `userId`, or 404. */
    method GetUser(userId: Id) returns (r: Result<User>)
      ensures userId in users ==> r == Ok(users[userId])
      ensures userId !in users ==> r == Err(NotFound)
    {
      if userId in users {
        r := Ok(users[userId]);
      } else {
        r := Err(NotFound);
      }
    }

    /** `get_user_by_username`: the first user with that username, or None. */
    method GetUserByUsername(username: string) returns (r: Option<User>)
      ensures r.None? <==> !UsernameTaken(users, username)
      ensures r.Some? ==> r.value in users.Values && r.value.username == username
      ensures Valid() && r.Some? ==> forall k :: k in users && users[k].username == username ==> users[k] == r.value
    {
      var matching := set k | k in users && users[k].username == username;
      if matching == {} {
        assert forall k :: k in users && users[k].username == username ==> k in matching;
        r := None;
      } else {
        var k :| k in matching;
        r := Some(users[k]);
      }
    }

    /** `get_users`: a page of all users, in ascending id order. */
    method GetUsers(skip: nat, limit: nat) returns (r: seq<User>)
      ensures r == Page(InIdOrder(users, nextUserId), skip, limit)
    {
      r := Page(InIdOrder(users, nextUserId), skip, limit);
    }

    /**
     * `get_current_user`: `decode` stands for verifying the token and reading
     * its subject claim; a bad token, a missing subject or an unknown
     * username all answer 401.
     */
    method GetCurrentUser(token: string, decode: string -> Option<string>) returns (r: Result<User>)
      ensures r.Ok? <==> decode(token).Some? && UsernameTaken(users, decode(token).value)
      ensures r.Ok? ==> r.value in users.Values && r.value.username == decode(token).value
      ensures r.Err? ==> r.status == Unauthorized
    {
      var subject := decode(token);
      if subject.None? {
        return Err(Unauthorized);
      }
      var user := GetUserByUsername(subject.value);
      if user.None? {
        return Err(Unauthorized);
      }
      r := Ok(user.value);
    }

    /**
     * `get_current_active_user` on top of `get_current_user`: an unresolved
     * token answers 401, a disabled account 400.
     */
    method GetCurrentActiveUser(token: string, decode: string -> Option<string>) returns (r: Result<User>)
      requires Valid()
      ensures r == Err(Unauthorized) <==> decode(token).None? || !UsernameTaken(users, decode(token).value)
      ensures r == Err(BadRequest) <==>
                decode(token).Some? && exists k :: k in users && users[k].username == decode(token).value && users[k].disabled
      ensures r.Ok? <==>
                decode(token).Some? && exists k :: k in users && users[k].username == decode(token).value && !users[k].disabled
      ensures r.Ok? ==> r.value in users.Values && r.value.username == decode(token).value && !r.value.disabled
    {
      var current := GetCurrentUser(token, decode);
      if current.Err? {
        return current;
      }
      if current.value.disabled {
        return Err(BadRequest);
      }
      r := current;
    }

    /**
     * `authenticate_user`: 401 when no user has the username, `False` when
     * the password does not verify against the stored hash, else the user.
     */
    method AuthenticateUser(username: string, password: string, verifyPassword: (string, string) -> bool)
      returns (r: Result<AuthResult>)
      requires Valid()
      ensures r.Err? <==> !UsernameTaken(users, username)
      ensures r.Err? ==> r.status == Unauthorized
      ensures r == Ok(WrongPassword) <==>
                exists k :: k in users && users[k].username == username && !verifyPassword(password, users[k].hashedPassword)
      ensures r.Ok? && r.value.Authenticated? ==>
                r.value.user in users.Values && r.value.user.username == username
                && verifyPassword(password, r.value.user.hashedPassword)
    {
      var user := GetUserByUsername(username);
      if user.None? {
        return Err(Unauthorized);
      }
      if !verifyPassword(password, user.value.hashedPassword) {
        return Ok(WrongPassword);
      }
      r := Ok(Authenticated(user.value));
    }

    /**
     * The token endpoint's use of `authenticate_user`: a wrong password is
     * answered with the same 401 as an unknown username; otherwise the user
     * to whom a token is issued.
     */
    method Login(username: string, password: string, verifyPassword: (string, string) -> bool)
      returns (r: Result<User>)
      requires Valid()
      ensures r.Err? ==> r.status == Unauthorized
      ensures r.Ok? <==>
                exists k :: k in users && users[k].username == username && verifyPassword(password, users[k].hashedPassword)
      ensures r.Ok? ==> r.value in users.Values && r.value.username == username
    {
      var outcome := AuthenticateUser(username, password, verifyPassword);
      if outcome == Ok(WrongPassword) {
        // usernames are unique, so the one user with this username is the one rejected
        var j :| j in users && users[j].username == username && !verifyPassword(password, users[j].hashedPassword);
        assert forall k :: k in users && users[k].username == username ==> k == j;
      }
      if outcome.Err? || outcome.value.WrongPassword? {
        return Err(Unauthorized);
      }
      r := Ok(outcome.value.user);
    }

    /**
     * `create_user`: 422 when the verifier rejects the email (before any
     * insert), 500 when the verifier call raises, 409 when the username or
     * the email is registered already; otherwise one new, enabled user whose
     * stored password is the hash of the given one.
     */
    method CreateUser(request: UserCreate, verifyEmail: string -> EmailVerdict, hash: string -> string)
      returns (r: Result<User>)
      requires Valid()
      modifies this
      ensures Valid()
      ensures verifyEmail(request.email) == EmailInvalid ==> r == Err(UnprocessableEntity)
      ensures verifyEmail(request.email) == VerifierFailed ==> r == Err(InternalServerError)
      ensures (verifyEmail(request.email) == EmailValid
                 && (UsernameTaken(old(users), request.username) || EmailTaken(old(users), request.email)))
              ==> r == Err(Conflict)
      ensures r.Ok? <==>
                verifyEmail(request.email) == EmailValid
                && !UsernameTaken(old(users), request.username) && !EmailTaken(old(users), request.email)
      ensures r.Err? ==> State() == old(State())
      ensures r.Ok? ==>
                && r.value.id == old(nextUserId) && r.value.id !in old(users)
                && r.value.username == request.username && r.value.email == request.email
                && r.value.fullName == request.fullName
                && r.value.hashedPassword == hash(request.password)
                && !r.value.disabled
                && users == old(users)[r.value.id := r.value]
                && posts == old(posts) && likes == old(likes)
                && nextUserId == old(nextUserId) + 1 && nextPostId == old(nextPostId)
    {
      var verdict := verifyEmail(request.email);
      if verdict == EmailInvalid {
        return Err(UnprocessableEntity);
      } else if verdict == VerifierFailed {
        return Err(InternalServerError);
      }
      var hashed := hash(request.password);
      if UsernameTaken(users, request.username) || EmailTaken(users, request.email) {
        return Err(Conflict);
      }
      var user := User(nextUserId, request.username, request.email, request.fullName, hashed, false);
      users := users[user.id := user];
      nextUserId := nextUserId + 1;
      r := Ok(user);
    }

    /**
     * `get_posts`: 404 when the actor is not a user (the 403 branch after
     * `get_user` is never taken), else a page of all posts in ascending id
     * order.
     */
    method GetPosts(actorId: Id, skip: nat, limit: nat) returns (r: Result<seq<Post>>)
      ensures r.Err? <==> actorId !in users
      ensures r.Err? ==> r.status == NotFound
      ensures r.Ok? ==> r.value == Page(InIdOrder(posts, nextPostId), skip, limit)
    {
      var actor := GetUser(actorId);
      if actor.Err? {
        return Err(actor.status);
      }
      r := Ok(Page(InIdOrder(posts, nextPostId), skip, limit));
    }

    /** `get_post`: the post with primary key `postId`, or None. */
    method GetPost(postId: Id) returns (r: Option<Post>)
      ensures postId in posts ==> r == Some(posts[postId])
      ensures postId !in posts ==> r == None
    {
      if postId in posts {
        r := Some(posts[postId]);
      } else {
        r := None;
      }
    }

    /**
     * `create_user_post`: 409 when the title is taken; otherwise one new post
     * with the given title and content, written by `userId`, liked by nobody.
     */
    method CreateUserPost(request: PostCreate, userId: Id) returns (r: Result<Post>)
      requires Valid() && userId in users
      modifies this
      ensures Valid()
      ensures TitleTaken(old(posts), request.title) ==> r == Err(Conflict)
      ensures r.Ok? <==> !TitleTaken(old(posts), request.title)
      ensures r.Err? ==> State() == old(State())
      ensures r.Ok? ==>
                && r.value.id == old(nextPostId) && r.value.id !in old(posts)
                && r.value.title == request.title && r.value.content == request.content
                && r.value.authorId == userId
                && posts == old(posts)[r.value.id := r.value]
                && UserLikes(likes, r.value.id) == {}
                && users == old(users) && likes == old(likes)
                && nextPostId == old(nextPostId) + 1 && nextUserId == old(nextUserId)
    {
      if TitleTaken(posts, request.title) {
        return Err(Conflict);
      }
      var post := Post(nextPostId, request.title, request.content, userId);
      posts := posts[post.id := post];
      nextPostId := nextPostId + 1;
      r := Ok(post);
    }

    /**
     * `update_post`: 404 when the post is absent, 403 when the actor is not
     * its author, 500 when the new title belongs to another post (the unique
     * constraint fails at commit and nothing is stored); otherwise only the
     * title and the content of that post change.
     */
    method UpdatePost(postId: Id, request: PostCreate, actorId: Id) returns (r: Result<Post>)
      requires Valid()
      modifies this
      ensures Valid()
      ensures postId !in old(posts) ==> r == Err(NotFound)
      ensures postId in old(posts) && old(posts)[postId].authorId != actorId ==> r == Err(Forbidden)
      ensures (postId in old(posts) && old(posts)[postId].authorId == actorId
                 && TitleTakenByOther(old(posts), request.title, postId))
              ==> r == Err(InternalServerError)
      ensures r.Ok? <==>
                postId in old(posts) && old(posts)[postId].authorId == actorId
                && !TitleTakenByOther(old(posts), request.title, postId)
      ensures r.Err? ==> State() == old(State())
      ensures r.Ok? ==>
                && r.value.id == postId && r.value.authorId == old(posts)[postId].authorId
                && r.value.title == request.title && r.value.content == request.content
                && posts == old(posts)[postId := r.value]
                && users == old(users) && likes == old(likes)
                && nextUserId == old(nextUserId) && nextPostId == old(nextPostId)
    {
      if postId !in posts {
        return Err(NotFound);
      } else if posts[postId].authorId != actorId {
        return Err(Forbidden);
      }
      if TitleTakenByOther(posts, request.title, postId) {
        return Err(InternalServerError);
      }
      var post := posts[postId].(title := request.title, content := request.content);
      posts := posts[postId := post];
      r := Ok(post);
    }

    /**
     * `delete_post`: 404 or 403 under the same rules as `update_post`;
     * otherwise exactly that post is removed and `{'Deleted': True}`
     * answered. Deleting the post through the session also deletes its
     * rows in the likes table, the `secondary` table of `Post.user_likes`.
     */
    method DeletePost(postId: Id, actorId: Id) returns (r: Result<bool>)
      requires Valid()
      modifies this
      ensures Valid()
      ensures postId !in old(posts) ==> r == Err(NotFound)
      ensures postId in old(posts) && old(posts)[postId].authorId != actorId ==> r == Err(Forbidden)
      ensures r.Ok? <==> postId in old(posts) && old(posts)[postId].authorId == actorId
      ensures r.Err? ==> State() == old(State())
      ensures r.Ok? ==>
                && r.value
                && posts == old(posts) - {postId}
                && likes == set l | l in old(likes) && l.postId != postId
                && users == old(users)
                && nextUserId == old(nextUserId) && nextPostId == old(nextPostId)
    {
      if postId !in posts {
        return Err(NotFound);
      } else if posts[postId].authorId != actorId {
        return Err(Forbidden);
      }
      posts := posts - {postId};
      likes := set l | l in likes && l.postId != postId;
      r := Ok(true);
    }

    /**
     * `update_like`: 404 when the post is absent, 400 when the actor wrote
     * it; otherwise the actor's like of that post is added when absent and
     * removed when present, and the post is returned.
     */
    method UpdateLike(postId: Id, actorId: Id) returns (r: Result<Post>)
      requires Valid() && actorId in users
      modifies this
      ensures Valid()
      ensures postId !in old(posts) ==> r == Err(NotFound)
      ensures postId in old(posts) && old(posts)[postId].authorId == actorId ==> r == Err(BadRequest)
      ensures r.Ok? <==> postId in old(posts) && old(posts)[postId].authorId != actorId
      ensures r.Err? ==> State() == old(State())
      ensures r.Ok? ==>
                && r.value == old(posts)[postId]
                && likes == Toggled(old(likes), Like(actorId, postId))
                && (actorId in UserLikes(likes, postId) <==> actorId !in UserLikes(old(likes), postId))
                && users == old(users) && posts == old(posts)
                && nextUserId == old(nextUserId) && nextPostId == old(nextPostId)
    {
      if postId !in posts {
        return Err(NotFound);
      } else if posts[postId].authorId == actorId {
        return Err(BadRequest);
      }
      var like := Like(actorId, postId);
      if like !in likes {
        likes := likes + {like};
      } else {
        likes := likes - {like};
      }
      r := Ok(posts[postId]);
    }
  }
}
