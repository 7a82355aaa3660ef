/**
 * Clients of the store that walk through registration, token resolution,
 * posting and liking, and prove from the contracts alone what each step
 * answers.
 */
module Scenario {
  import opened Models
  import opened Crud

  /** Two registrations succeed; a third with a taken username is refused with 409. */
  method RegistrationScenario()
  {
    var store := new Store();
    var hash := (password: string) => "hashed:" + password;
    var verifier := (email: string) => EmailValid;

    var alice := store.CreateUser(UserCreate("alice", "alice@example.org", None, "secret"), verifier, hash);
    assert alice.Ok? && store.users == map[alice.value.id := alice.value];
    var bob := store.CreateUser(UserCreate("bob", "bob@example.org", Some("Bob"), "secret"), verifier, hash);
    assert bob.Ok? && bob.value.hashedPassword == "hashed:secret" && !bob.value.disabled;
    assert bob.value.id in store.users;
    var again := store.CreateUser(UserCreate("bob", "other@example.org", None, "x"), verifier, hash);
    assert again == Err(Conflict) && again.status.Code() == 409;
  }

  /**
   * A token whose subject is an enabled user's name resolves to that user;
   * one that does not decode is refused with 401.
   */
  method TokenScenario(store: Store, userId: Id)
    requires store.Valid() && userId in store.users && !store.users[userId].disabled
  {
    var name := store.users[userId].username;
    var decode := (token: string) => if token == "token" then Some(name) else None;
    var current := store.GetCurrentActiveUser("token", decode);
    assert current.Ok? by {
      assert store.users[userId].username == decode("token").value;
    }
    var k :| k in store.users && store.users[k] == current.value;
    assert current == Ok(store.users[userId]) by {
      assert k == userId;
    }
    var forged := store.GetCurrentActiveUser("forged", decode);
    assert forged == Err(Unauthorized);
  }

  /**
   * A post and a user who did not write it and does not like it yet: the
   * author cannot like the post, the other user likes it and unlikes it,
   * which restores the like table, and only the author can delete it,
   * which also removes its likes.
   */
  method LikeScenario(store: Store, postId: Id, liker: Id)
    requires store.Valid() && postId in store.posts && liker in store.users
    requires store.posts[postId].authorId != liker && liker !in UserLikes(store.likes, postId)
    modifies store
  {
    var author := store.posts[postId].authorId;
    var own := store.UpdateLike(postId, author);
    assert own == Err(BadRequest);

    var like := store.UpdateLike(postId, liker);
    assert liker in UserLikes(store.likes, postId);
    var unlike := store.UpdateLike(postId, liker);
    ToggledTwice(old(store.likes), Like(liker, postId));
    assert store.likes == old(store.likes);

    var stranger := store.DeletePost(postId, liker);
    assert stranger == Err(Forbidden) && stranger.status.Code() == 403;
    var deleted := store.DeletePost(postId, author);
    assert deleted == Ok(true) && store.posts == old(store.posts) - {postId};
    assert UserLikes(store.likes, postId) == {};
  }
}
