/**
 * The entity shapes of models.py: the users and posts tables, the likes
 * join table, and the constraints the database enforces on them (unique
 * columns, primary keys, foreign keys), written as predicates.
 */
module Models {

  /** A primary key: the database hands out positive integers. */
  type Id = nat

  datatype Option<+T> = None | Some(value: T)

  /** A row of the `users` table. */
  datatype User = User(
    id: Id,
    username: string,
    email: string,
    fullName: Option<string>,
    hashedPassword: string,
    disabled: bool)

  /** A row of the `posts` table; `authorId` is the foreign key into `users`. */
  datatype Post = Post(id: Id, title: string, content: string, authorId: Id)

  /** A row of the `likes` join table: `userId` likes `postId`. */
  datatype Like = Like(userId: Id, postId: Id)

  /**
   * The three tables, keyed by primary key, together with the next key the
   * database will hand out for each of the two entity tables.
   */
  datatype Database = Database(
    users: map<Id, User>,
    posts: map<Id, Post>,
    likes: set<Like>,
    nextUserId: Id,
    nextPostId: Id)

  predicate UsernameTaken(users: map<Id, User>, username: string) {
    exists k :: k in users && users[k].username == username
  }

  predicate EmailTaken(users: map<Id, User>, email: string) {
    exists k :: k in users && users[k].email == email
  }

  predicate TitleTaken(posts: map<Id, Post>, title: string) {
    exists k :: k in posts && posts[k].title == title
  }

  /** Some post other than `id` already carries `title`. */
  predicate TitleTakenByOther(posts: map<Id, Post>, title: string, id: Id) {
    exists k :: k in posts && k != id && posts[k].title == title
  }

  /** `username = Column(String, unique=True)` */
  predicate UniqueUsernames(users: map<Id, User>) {
    forall a, b :: a in users && b in users && users[a].username == users[b].username ==> a == b
  }

  /** `email = Column(String, unique=True)` */
  predicate UniqueEmails(users: map<Id, User>) {
    forall a, b :: a in users && b in users && users[a].email == users[b].email ==> a == b
  }

  /** `title = Column(String, unique=True)` */
  predicate UniqueTitles(posts: map<Id, Post>) {
    forall a, b :: a in posts && b in posts && posts[a].title == posts[b].title ==> a == b
  }

  /** `author_id = Column(Integer, ForeignKey("users.id"))` */
  predicate AuthorsExist(users: map<Id, User>, posts: map<Id, Post>) {
    forall k :: k in posts ==> posts[k].authorId in users
  }

  /** `likes.user_id` is a foreign key into `users`. */
  predicate LikersExist(users: map<Id, User>, likes: set<Like>) {
    forall l :: l in likes ==> l.userId in users
  }

  /** `likes.post_id` is a foreign key into `posts`. */
  predicate LikedPostsExist(posts: map<Id, Post>, likes: set<Like>) {
    forall l :: l in likes ==> l.postId in posts
  }

  /** No user likes their own post. */
  predicate NoSelfLikes(posts: map<Id, Post>, likes: set<Like>) {
    forall l :: l in likes && l.postId in posts ==> posts[l.postId].authorId != l.userId
  }

  /**
   * Every constraint the tables keep: each row is stored under its own
   * primary key, every key below the next one to be handed out, the unique
   * columns are unique, the foreign keys resolve, and nobody likes their own
   * post.
   */
  predicate Consistent(db: Database) {
    && (forall k :: k in db.users ==> db.users[k].id == k && 1 <= k < db.nextUserId)
    && (forall k :: k in db.posts ==> db.posts[k].id == k && 1 <= k < db.nextPostId)
    && 1 <= db.nextUserId && 1 <= db.nextPostId
    && UniqueUsernames(db.users)
    && UniqueEmails(db.users)
    && UniqueTitles(db.posts)
    && AuthorsExist(db.users, db.posts)
    && LikersExist(db.users, db.likes)
    && LikedPostsExist(db.posts, db.likes)
    && NoSelfLikes(db.posts, db.likes)
  }

  /** `Post.user_likes`: the users who like post `postId`. */
  function UserLikes(likes: set<Like>, postId: Id): (r: set<Id>)
    ensures forall u :: u in r <==> Like(u, postId) in likes
  {
    set l | l in likes && l.postId == postId :: l.userId
  }

  /** `User.post_likes`: the existing posts that user `userId` likes. */
  function PostLikes(posts: map<Id, Post>, likes: set<Like>, userId: Id): (r: set<Id>)
    ensures forall p :: p in r <==> p in posts && Like(userId, p) in likes
  {
    set l | l in likes && l.userId == userId && l.postId in posts :: l.postId
  }

  /** `User.posts`: the posts whose author is user `userId`. */
  function AuthoredPosts(posts: map<Id, Post>, userId: Id): (r: set<Id>)
    ensures forall p :: p in r <==> p in posts && posts[p].authorId == userId
  {
    set p | p in posts && posts[p].authorId == userId
  }

  /**
   * `Post.user_likes` and `User.post_likes` are the two sides of one
   * relation: for an existing post, a user is among its likers exactly when
   * the post is among that user's liked posts.
   */
  lemma LikeViewsAgree(posts: map<Id, Post>, likes: set<Like>, u: Id, p: Id)
    requires p in posts
    ensures u in UserLikes(likes, p) <==> p in PostLikes(posts, likes, u)
  {
  }

  /** Under the constraints, every liker of an existing post is a user other than its author. */
  lemma LikersAreOtherUsers(db: Database, p: Id)
    requires Consistent(db) && p in db.posts
    ensures forall u :: u in UserLikes(db.likes, p) ==> u in db.users && u != db.posts[p].authorId
  {
  }
}
