/**
  A client of the store: the story of two users, one post, its likes, a
  comment, an edit and a delete, checked against the handlers' contracts
  alone.
 */
module Scenarios {
  import opened Models
  import opened Forms
  import opened Queries
  import opened Routes

  /** A second registration with a username already in use is refused. */
  method RegisterTwice(kdf: Kdf)
  {
    var store := new Store(kdf, _ => true);
    var form := RegistrationForm("alice", "alice@example.org", "secret1", "secret1");
    assert !IsSpace(form.username[0]) && !IsSpace(form.email[0]) && !IsSpace(form.password[0]);
    RegistrationRules(form, store.isEmail);
    var first := store.Register(form, "salt-a");
    assert first == Ok(1);
    var again := store.Register(RegistrationForm("alice", "other@example.org", "secret2", "secret2"), "salt-c");
    assert store.users[1].username == "alice";
    assert again.Fail?;
  }

  /** After registering, the same credentials log in and a wrong password does not. */
  method RegisterThenLogin(kdf: Kdf)
    requires CollisionFree(kdf)
  {
    var store := new Store(kdf, _ => true);
    var form := RegistrationForm("alice", "alice@example.org", "secret1", "secret1");
    assert !IsSpace(form.username[0]) && !IsSpace(form.email[0]) && !IsSpace(form.password[0]);
    RegistrationRules(form, store.isEmail);
    var r := store.Register(form, "salt-a");
    assert r == Ok(1);
    RegisteredCredentialsPassLogin(form, store.isEmail);
    assert store.Login(LoginForm("alice@example.org", "secret1")) == Ok(1);
    var wrong := LoginForm("alice@example.org", "secret9");
    assert !IsSpace(wrong.password[0]);
    LoginRules(wrong, store.isEmail);
    PasswordRoundTrip(kdf, "salt-a", "secret1", "secret9");
    assert store.Login(wrong) == Fail(InvalidCredentials);
  }

  /** One user posts; another likes the post, then likes it again; its author
      tries to like it. */
  method LikeTwiceThenOwnLike(store: Store, alice: UserId, bob: UserId)
    requires store.Valid() && alice in store.users && bob in store.users && alice != bob
    modifies store
  {
    var rp := store.AddPost(alice, Some("Hello"), Some("World"));
    var post := rp.value;
    assert !LikedBy(store.interactions, bob, post);
    var like1 := store.LikePost(bob, post);
    assert like1.Ok?;
    assert LikedBy(store.interactions, bob, post) by {
      assert store.interactions[|store.interactions| - 1] == Interaction(bob, post, Like);
    }
    var like2 := store.LikePost(bob, post);
    assert like2 == Fail(AlreadyLiked);
    var like3 := store.LikePost(alice, post);
    assert like3 == Fail(OwnPost);
    assert bob in store.PostLikes(post).value;
  }

  /** Another user comments on a post; an empty comment is refused. */
  method CommentOnPost(store: Store, bob: UserId, post: PostId)
    requires store.Valid() && bob in store.users && post in store.posts
    modifies store
  {
    var rc := store.AddComment(bob, post, Some("nice"));
    assert rc.Ok?;
    var empty := store.AddComment(bob, post, Some(""));
    assert empty == Fail(BadRequest);
    assert Comment("nice", bob, post) in store.ViewComments(post).value;
  }

  /** Another user can neither edit nor delete a post; its author edits it and
      deletes it, after which its comments and likes are not found. */
  method EditThenDelete(store: Store, alice: UserId, bob: UserId, post: PostId)
    requires store.Valid() && alice in store.users && bob in store.users && alice != bob
    requires post in store.posts && store.posts[post].owner == alice
    modifies store
  {
    var notYours := store.EditPost(bob, post, Some("Mine"), Some("now"));
    assert notYours == Fail(Unauthorized);
    var cannotDelete := store.DeletePost(bob, post);
    assert cannotDelete == Fail(Unauthorized);

    var edit := PostForm("Hello again", "World!");
    assert !IsSpace(edit.title[0]) && !IsSpace(edit.content[0]);
    PostFormRules(edit);
    var edited := store.EditPost(alice, post, Some(edit.title), Some(edit.content));
    assert edited.Ok? && store.posts[post] == Post("Hello again", "World!", alice);

    var deleted := store.DeletePost(alice, post);
    assert deleted.Ok?;
    assert store.ViewComments(post) == Fail(NotFound);
    assert store.PostLikes(post) == Fail(NotFound);
  }
}
