# Social-media backend: the CRUD rules as a verified in-memory store

The backend registers users, authenticates them by password and bearer
token, and lets them write posts and like other users' posts. Its logic is
in `crud.py`. That file wraps a small set of rules around the
object-relational mapper: who may edit or delete a post, what must be
unique, and how a like is toggled. `models.py` declares the tables and
their constraints.

This project models both files in Dafny.

- `models.dfy` (module `Models`) holds the rows of the `users`, `posts` and
  `likes` tables as datatypes. The whole database is a `Database` record.
  The constraints the database enforces become the predicate `Consistent`.
  The two relationship views of the likes table are `UserLikes` and
  `PostLikes`; the author relation seen from a user is `AuthoredPosts`.
- `crud.dfy` (module `Crud`) holds the database session as the class
  `Store`. It has one map per entity table, a set for the likes table, and
  one key counter per entity table. Each crud function is a method of
  `Store`. A method returns either its value or the HTTP status it raises
  (`Result`). Every mutating method keeps `Valid()`, the class invariant. A
  failed call leaves the whole state unchanged.
- `scenario.dfy` (module `Scenario`) holds client methods. From the
  contracts alone they prove what a registration and a like/unlike session
  answer.

The constraints kept as the invariant `Consistent` are these:

- each row is stored under its own primary key (models.py:25, models.py:43);
- keys come from a counter per table that never hands out a key twice;
- usernames are unique (models.py:26) and emails are unique (models.py:27);
- titles are unique (models.py:44);
- every post's author is a user (models.py:46);
- every like's user is a user (models.py:17) and every like's post is a post (models.py:18);
- no user likes their own post. This follows from the guard at
  crud.py:256-260, because no operation changes a post's author.

The database reports a unique-constraint violation as an `IntegrityError`.
`crud.py` catches it in `create_user` and `create_user_post`. The model
replaces that with an explicit check before the insert.

Collaborators from outside the core are parameters of the methods that use
them:

- password hashing: `hash: string -> string`;
- password verification: `verifyPassword: (string, string) -> bool`;
- the email verifier: `verifyEmail: string -> EmailVerdict`;
- JWT decoding plus reading the `sub` claim:
  `decode: string -> Option<string>`. Here `None` covers both an invalid
  token and a missing subject.

Some answers are easy to mistake; the model gives the ones the code gives:

- A disabled account is refused with 400 (crud.py:86-87), although the
  situation reads like a 403.
- `verify_email` can raise, for example on a connection timeout.
  `create_user` does not catch that, so the request fails with 500, not with
  the 422 of a rejected address (crud.py:112).
- `update_post` does not catch the `IntegrityError` raised when the new
  title belongs to another post. The commit fails, the request answers 500
  (not 409) and nothing is stored (crud.py:202-204).
- `delete_post` calls `Session.delete` on the post (crud.py:232). Because
  `Post.user_likes` names `likes` as its `secondary` table
  (models.py:49-53), the mapper also deletes the post's rows in the likes
  table, so no like is left pointing at a missing post.
- `get_posts` can never answer 403. `get_user` raises 404 before the 403
  test is reached (crud.py:146-150).
- `get_post` answers `None` for a missing post, not 404 (crud.py:158-160).

## Model

| member | source | states |
|---|---|---|
| `Models.UserLikes` | models.py:49-53 | `Post.user_likes`: the ids of exactly the users paired with the post in the likes table |
| `Models.PostLikes` | models.py:33-37 | `User.post_likes`: the ids of exactly the existing posts the user is paired with in the likes table |
| `Models.AuthoredPosts` | models.py:32 | `User.posts`: the ids of exactly the existing posts whose `author_id` is the user |
| `Models.LikeViewsAgree` | models.py:14-19 | for an existing post, u is among its likers exactly when the post is among u's liked posts: the two views are one relation |
| `Models.LikersAreOtherUsers` | crud.py:256-260 | in a consistent database, every liker of a post is an existing user and is not its author |
| `Crud.Page` | crud.py:51 | OFFSET/LIMIT: the result has min(limit, rows − skip) elements (none when skip is past the end), and element i is row skip + i |
| `Crud.UsersListedInIdOrder` | crud.py:51 | the listing that `get_users` pages holds every stored user and nothing else, in strictly ascending id order |
| `Crud.PostsListedInIdOrder` | crud.py:151 | the listing that `get_posts` pages holds every stored post and nothing else, in strictly ascending id order |
| `Crud.Toggled` | crud.py:262-269 | the like of the acting pair flips (present after exactly when absent before), and every other pair keeps its state |
| `Crud.ToggledTwice` | crud.py:262-269 | toggling the same pair twice gives back the original like set |
| `Crud.Store.GetUser` | crud.py:27-34 | the stored user with that id, or 404 when there is none |
| `Crud.Store.GetUserByUsername` | crud.py:37-43 | None exactly when no user has the username; otherwise a stored user with it, the only one while the invariant holds |
| `Crud.Store.GetUsers` | crud.py:46-51 | the skip/limit window of all users in ascending id order |
| `Crud.Store.GetCurrentUser` | crud.py:54-77 | succeeds exactly when the token decodes to a subject that some user has as username, and then answers a stored user with that username; every failure is 401 |
| `Crud.Store.GetCurrentActiveUser` | crud.py:80-88 | 401 exactly when the token does not resolve to a user; 400 exactly when it resolves to a disabled user; otherwise the resolved, enabled user |
| `Crud.Store.AuthenticateUser` | crud.py:91-104 | 401 exactly when no user has the username; `False` exactly when that user's stored hash rejects the password; otherwise that user, whose hash accepts it |
| `Crud.Store.Login` | main.py:28-37 | the token endpoint succeeds exactly when some user has the username and their hash accepts the password; both kinds of failure answer the same 401 |
| `Crud.Store.CreateUser` | crud.py:107-133 | 422 when the email is rejected, before any insert; 500 when the verifier fails; 409 when the username or email is taken; it succeeds exactly otherwise. On success there is one new enabled user with a fresh id and the request's fields, whose stored password is `hash(password)`, and nothing else changes. A failure changes nothing. The invariant is kept |
| `Crud.Store.GetPosts` | crud.py:136-151 | fails exactly when the actor is not a user, and then with 404 (never 403); otherwise the skip/limit window of all posts in ascending id order |
| `Crud.Store.GetPost` | crud.py:154-160 | the stored post with that id, or None |
| `Crud.Store.CreateUserPost` | crud.py:163-178 | 409 exactly when the title is taken, and then nothing changes. Otherwise there is one new post with a fresh id, the given title and content, and `author_id` = the user. Nobody likes it yet, and nothing else changes. The invariant is kept |
| `Crud.Store.UpdatePost` | crud.py:181-206 | 404 when the post is absent; 403 when the actor is not its author; 500 when another post has the new title; it succeeds exactly otherwise. A failure changes nothing. On success only that post's title and content change: its id and author, its likes, the other posts and the users stay as they were |
| `Crud.Store.DeletePost` | crud.py:209-234 | 404 when the post is absent; 403 when the actor is not its author; it succeeds exactly otherwise. A failure changes nothing. On success exactly that post is removed together with its rows in the likes table, and `{'Deleted': True}` is answered; users, the other posts and every like of another post are untouched |
| `Crud.Store.UpdateLike` | crud.py:237-270 | 404 when the post is absent; 400 when the actor is its author; it succeeds exactly otherwise. A failure changes nothing. On success the like table is the old one with the actor's pair toggled, so the actor is a liker exactly when they were not before. Users and posts are unchanged and the post is returned |

## Left out

- Routing, request parsing and response shaping (main.py, schemas.py) are not modelled. The exception is the 401 that the token endpoint derives from a `False` login, which is `Crud.Store.Login`.
- Responses carry `Post` and `User` rows. The lists `PostOut.user_likes` and `UserOut.post_likes` are available through `UserLikes` and `PostLikes`, and `UserOut.posts` through `AuthoredPosts`.
- Token issuing and expiry (`create_access_token`) are not modelled: they depend on the wall clock and the signing library. Only decoding is modelled, as the abstract `decode` parameter.
- bcrypt, the JWT library and the hunter.io HTTP call are foreign code. They appear only as function parameters.
- Configuration and `.env` loading are not modelled.
- The `get_db` session lifecycle, `commit`/`refresh`, transactions and concurrent requests are not modelled. Each method is one atomic step.
- The error message texts are left out; only the status is modelled.
- The database's key generator is modelled as a counter per table starting at 1 that never reuses a key.
- Listings are modelled in ascending id order. The SQL query has no ORDER BY, so the real order is whatever the database returns.
- `skip` and `limit` are natural numbers. Negative values are not modelled. Their defaults (`skip=0`, `limit=100`, crud.py:47 and crud.py:140) are not modelled either: every call passes both.
- Ids are natural numbers, while the path parameters `post_id` are Python ints and can be negative. A negative id matches no row, exactly like an absent id, so no answer is lost.
- The likes table has no unique constraint, so the database could hold a pair twice. `update_like` tests membership before it appends, so no crud operation creates a duplicate. The model keeps likes as a set.
- Crud.Store.CreateUser: the stored hash is `hash(password)` for a deterministic abstract `hash`. The random salt bcrypt adds is not modelled.
- Crud.Store.GetUserByUsername: it answers some user with the username, not the first in table order. While usernames are unique there is only one.
- Crud.Store.CreateUserPost and Crud.Store.UpdateLike require the acting user to exist. Their callers always pass a user resolved from the token.
