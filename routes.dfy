/**
  The request handlers of the blog as operations on an in-memory store.

  The store holds the four tables: users and posts as maps from id to row
  (ids are handed out from counters that start at 1, as the database's
  integer primary keys do), comments and interactions as append-only
  sequences in row order. Every handler takes the acting user explicitly, in
  place of the session's current user, and answers with an `Outcome` in place
  of a rendered page, a redirect or a JSON body.
 */
module Routes {
  import opened Models
  import opened Forms
  import opened Queries

  datatype Failure =
    | NotFound            // get_or_404 / first_or_404
    | Unauthorized        // not the post's author
    | BadRequest          // missing request field or empty comment: HTTP 400
    | InvalidForm         // the form did not validate; the page is shown again
    | InvalidCredentials  // unknown email or wrong password, reported alike
    | IntegrityError      // a unique column (username, email) refused the insert
    | AlreadyLiked        // "You have already liked this post"
    | OwnPost             // "You cannot like your own post"

  datatype Outcome<T> = Ok(value: T) | Fail(failure: Failure)

  class Store {
    const kdf: Kdf
    const isEmail: string -> bool
    var users: map<UserId, User>
    var posts: map<PostId, Post>
    var comments: seq<Comment>
    var interactions: seq<Interaction>
    var nextUserId: nat
    var nextPostId: nat

    /** The username column, by user id. */
    function Names(): map<UserId, string>
      reads this, users.Values
    {
      map id | id in users :: users[id].username
    }

    /** The email column, by user id. */
    function Emails(): map<UserId, string>
      reads this, users.Values
    {
      map id | id in users :: users[id].email
    }

    /** The like rules over an interactions table: no post's owner holds an
        interaction on it, and no (user, post) pair occurs twice. */
    ghost predicate LikeRules(s: seq<Interaction>)
      reads this`posts
    {
      && (forall i :: i in s && i.post in posts ==> i.user != posts[i.post].owner)
      && NoDuplicateInteractions(s)
    }

    /** No two users share a username, and no two share an email. */
    ghost predicate UniqueColumns()
      reads this`users, users.Values
    {
      forall a, b :: a in users && b in users && a != b ==>
        users[a].username != users[b].username && users[a].email != users[b].email
    }

    /** Every user and post row has an id handed out so far (ids start at 1), and
        every post and comment refers to a registered user and to a post id
        handed out so far. */
    ghost predicate RowsLinked()
      reads this`nextUserId, this`nextPostId, this`users, this`posts, this`comments
    {
      && 0 < nextUserId && 0 < nextPostId
      && (forall id :: id in users ==> 0 < id < nextUserId)
      && (forall id :: id in posts ==> 0 < id < nextPostId && posts[id].owner in users)
      && (forall c :: c in comments ==> c.author in users && 0 < c.post < nextPostId)
    }

    /** Every interaction refers to a registered user and a post id handed out so far. */
    ghost predicate InteractionsLinked(s: seq<Interaction>)
      reads this`users, this`nextPostId
    {
      forall i :: i in s ==> i.user in users && 0 < i.post < nextPostId
    }

    ghost predicate Valid()
      reads this, users.Values
    {
      RowsLinked() && InteractionsLinked(interactions) && UniqueColumns() && LikeRules(interactions)
    }

    constructor (kdf: Kdf, isEmail: string -> bool)
      ensures Valid() && this.kdf == kdf && this.isEmail == isEmail
      ensures users == map[] && posts == map[] && comments == [] && interactions == []
      ensures nextUserId == 1 && nextPostId == 1
    {
      this.kdf, this.isEmail := kdf, isEmail;
      users, posts, comments, interactions := map[], map[], [], [];
      nextUserId, nextPostId := 1, 1;
    }

    /** Some user already has the form's username or its email. */
    predicate Taken(form: RegistrationForm)
      reads this, users.Values
    {
      exists id | id in users :: users[id].username == form.username || users[id].email == form.email
    }

    /** `register`: a valid form creates a user whose password is kept only as its
        hash; a username or email already in use makes the insert fail. */
    method Register(form: RegistrationForm, salt: string) returns (r: Outcome<UserId>)
      requires Valid()
      modifies this`users, this`nextUserId
      ensures Valid()
      ensures !RegistrationValid(form, isEmail) ==> r == Fail(InvalidForm)
      ensures RegistrationValid(form, isEmail) && old(Taken(form)) ==> r == Fail(IntegrityError)
      ensures r.Ok? <==> RegistrationValid(form, isEmail) && !old(Taken(form))
      ensures r.Ok? ==> && r.value == old(nextUserId) && nextUserId == old(nextUserId) + 1
                        && r.value in users && fresh(users[r.value])
                        && users == old(users)[r.value := users[r.value]]
      ensures r.Ok? ==> && users[r.value].username == form.username && users[r.value].email == form.email
                        && users[r.value].passwordHash == GeneratePasswordHash(kdf, salt, form.password)
      ensures !r.Ok? ==> users == old(users) && nextUserId == old(nextUserId)
    {
      if !RegistrationValid(form, isEmail) {
        return Fail(InvalidForm);
      }
      if Taken(form) {
        return Fail(IntegrityError);
      }
      var user := new User(form.email, form.username, form.password, kdf, salt);
      r := Ok(nextUserId);
      users := users[nextUserId := user];
      nextUserId := nextUserId + 1;
    }

    /** The username and email columns, read as maps, are injective and name every
        interacting user. */
    lemma ColumnsAsMaps()
      requires Valid()
      ensures Injective(Names()) && Injective(Emails())
      ensures NamesCover(interactions, Names())
    {
    }

    /** `login`: the first user with the form's email, if the password checks
        against that user's hash. */
    function Login(form: LoginForm): (r: Outcome<UserId>)
      reads this, users.Values
      requires Valid()
      ensures !LoginValid(form, isEmail) ==> r == Fail(InvalidForm)
      ensures r.Ok? <==> && LoginValid(form, isEmail)
                         && exists id :: id in users && users[id].email == form.email
                                         && users[id].CheckPassword(kdf, form.password)
      ensures r.Ok? ==> && r.value in users && users[r.value].email == form.email
                        && users[r.value].CheckPassword(kdf, form.password)
      ensures LoginValid(form, isEmail) && !r.Ok? ==> r == Fail(InvalidCredentials)
    {
      if !LoginValid(form, isEmail) then Fail(InvalidForm)
      else
        ColumnsAsMaps();
        assert forall id :: id in users ==> id < nextUserId && Emails()[id] == users[id].email;
        match FirstWith(Emails(), form.email, nextUserId)
        case Some(id) => if users[id].CheckPassword(kdf, form.password) then Ok(id) else Fail(InvalidCredentials)
        case None => Fail(InvalidCredentials)
    }

    /** `home`: every post in id order, with its comments, whether the actor has
        an interaction on it, and the username behind each of its interactions. */
    method Home(actor: UserId) returns (shown: seq<PostId>, postComments: map<PostId, seq<Comment>>,
                                        postLiked: map<PostId, bool>, likedUsers: map<PostId, seq<string>>)
      requires RowsLinked() && InteractionsLinked(interactions)
      ensures Ascending(shown) && forall p :: p in shown <==> p in posts
      ensures postComments.Keys == posts.Keys
      ensures forall p :: p in posts ==> postComments[p] == CommentsOn(comments, p)
      ensures postLiked.Keys == posts.Keys
      ensures forall p :: p in posts ==> (postLiked[p] <==> LikedBy(interactions, actor, p))
      ensures likedUsers.Keys == posts.Keys
      ensures forall p :: p in posts ==> likedUsers[p] == LikerNames(interactions, Names(), p)
    {
      var names, table, notes, reactions := Names(), posts, comments, interactions;
      assert NamesCover(reactions, names);
      shown, postComments, postLiked, likedUsers := [], map[], map[], map[];
      for id := 0 to nextPostId
        invariant Ascending(shown) && forall j :: 0 <= j < |shown| ==> shown[j] < id
        invariant forall p :: p in shown <==> p in table && p < id
        invariant forall p :: p in postComments <==> p in shown
        invariant forall p :: p in postComments ==> postComments[p] == CommentsOn(notes, p)
        invariant forall p :: p in postLiked <==> p in shown
        invariant forall p :: p in postLiked ==> (postLiked[p] <==> LikedBy(reactions, actor, p))
        invariant forall p :: p in likedUsers <==> p in shown
        invariant forall p :: p in likedUsers ==> likedUsers[p] == LikerNames(reactions, names, p)
      {
        if id in table {
          shown := shown + [id];
          postComments := postComments[id := CommentsOn(notes, id)];
          postLiked := postLiked[id := LikedBy(reactions, actor, id)];
          likedUsers := likedUsers[id := LikerNames(reactions, names, id)];
        }
      }
    }

    /** `user_profile`: the posts of the user with that username, in id order. */
    function UserProfile(username: string): (r: Outcome<seq<PostId>>)
      reads this, users.Values
      requires Valid()
      ensures r.Fail? <==> forall id :: id in users ==> users[id].username != username
      ensures r.Fail? ==> r.failure == NotFound
      ensures r.Ok? ==> Ascending(r.value)
      ensures r.Ok? ==> forall p :: p in r.value <==> p in posts && users[posts[p].owner].username == username
    {
      ColumnsAsMaps();
      assert forall id :: id in users ==> id < nextUserId && Names()[id] == users[id].username;
      match FirstWith(Names(), username, nextUserId)
      case None => Fail(NotFound)
      case Some(uid) => Ok(PostsOf(posts, uid, nextPostId))
    }

    /** `edit_post`: only the author may edit. The form is filled from the post and
        then from the request, so a field the request leaves out keeps the post's
        value; a valid form replaces exactly the title and the content. */
    method EditPost(actor: UserId, pid: PostId, title: Option<string>, content: Option<string>) returns (r: Outcome<()>)
      requires Valid() && actor in users
      modifies this`posts
      ensures Valid()
      ensures pid !in old(posts) ==> r == Fail(NotFound)
      ensures pid in old(posts) && old(posts)[pid].owner != actor ==> r == Fail(Unauthorized)
      ensures pid in old(posts) && old(posts)[pid].owner == actor && !PostFormValid(Submitted(old(posts)[pid], title, content))
              ==> r == Fail(InvalidForm)
      ensures r.Ok? <==> && pid in old(posts) && old(posts)[pid].owner == actor
                         && PostFormValid(Submitted(old(posts)[pid], title, content))
      ensures r.Ok? ==> && pid in posts && posts[pid].owner == old(posts)[pid].owner
                        && posts[pid].title == (if title.Some? then title.value else old(posts)[pid].title)
                        && posts[pid].content == (if content.Some? then content.value else old(posts)[pid].content)
                        && posts == old(posts)[pid := posts[pid]]
      ensures !r.Ok? ==> posts == old(posts)
    {
      if pid !in posts {
        return Fail(NotFound);
      }
      var post := posts[pid];
      if post.owner != actor {
        return Fail(Unauthorized);
      }
      var form := Submitted(post, title, content);
      if !PostFormValid(form) {
        return Fail(InvalidForm);
      }
      ReplacePost(pid, post.(title := form.title, content := form.content));
      r := Ok(());
    }

    /** Writes back an edited post row that keeps its author. */
    method ReplacePost(pid: PostId, post: Post)
      requires Valid() && pid in posts && post.owner == posts[pid].owner
      modifies this`posts
      ensures Valid()
      ensures posts == old(posts)[pid := post]
    {
      posts := posts[pid := post];
    }

    /** `delete_post`: only the author may delete; deleting removes exactly that post. */
    method DeletePost(actor: UserId, pid: PostId) returns (r: Outcome<()>)
      requires Valid() && actor in users
      modifies this`posts
      ensures Valid()
      ensures pid !in old(posts) ==> r == Fail(NotFound)
      ensures pid in old(posts) && old(posts)[pid].owner != actor ==> r == Fail(Unauthorized)
      ensures r.Ok? <==> pid in old(posts) && old(posts)[pid].owner == actor
      ensures r.Ok? ==> posts == old(posts) - {pid}
      ensures !r.Ok? ==> posts == old(posts)
    {
      if pid !in posts {
        return Fail(NotFound);
      }
      if posts[pid].owner != actor {
        return Fail(Unauthorized);
      }
      posts := posts - {pid};
      r := Ok(());
    }

    /** The post form as `PostForm(obj=post)` fills it: each field from the request
        when the request carries it, otherwise from the post. */
    static function Submitted(post: Post, title: Option<string>, content: Option<string>): (r: PostForm)
      ensures PostFormValid(r) <==> && !IsBlank(if title.Some? then title.value else post.title)
                                    && !IsBlank(if content.Some? then content.value else post.content)
      ensures title.None? && content.None? ==> r == PostForm(post.title, post.content)
    {
      var form := PostForm(if title.Some? then title.value else post.title,
                           if content.Some? then content.value else post.content);
      PostFormRules(form);
      form
    }

    /** `add_post`: reads the title and content fields of the request as they are;
        a missing field is a bad request. */
    method AddPost(actor: UserId, title: Option<string>, content: Option<string>) returns (r: Outcome<PostId>)
      requires Valid() && actor in users
      modifies this`posts, this`nextPostId
      ensures Valid()
      ensures r.Ok? <==> title.Some? && content.Some?
      ensures !r.Ok? ==> r == Fail(BadRequest) && posts == old(posts) && nextPostId == old(nextPostId)
      ensures r.Ok? ==> && r.value == old(nextPostId) && r.value !in old(posts)
                        && posts == old(posts)[r.value := Post(title.value, content.value, actor)]
                        && nextPostId == old(nextPostId) + 1
    {
      if title.None? || content.None? {
        return Fail(BadRequest);
      }
      r := Ok(nextPostId);
      posts := posts[nextPostId := Post(title.value, content.value, actor)];
      nextPostId := nextPostId + 1;
    }

    /** `add_comment`: a missing or empty comment is a bad request; otherwise one
        comment by the actor on that post is appended. */
    method AddComment(actor: UserId, pid: PostId, comment: Option<string>) returns (r: Outcome<()>)
      requires Valid() && actor in users
      modifies this`comments
      ensures Valid()
      ensures pid !in posts ==> r == Fail(NotFound)
      ensures pid in posts && (comment.None? || comment.value == "") ==> r == Fail(BadRequest)
      ensures r.Ok? <==> pid in posts && comment.Some? && comment.value != ""
      ensures r.Ok? ==> comments == old(comments) + [Comment(comment.value, actor, pid)]
      ensures r.Ok? ==> CommentsOn(comments, pid) == old(CommentsOn(comments, pid)) + [Comment(comment.value, actor, pid)]
      ensures !r.Ok? ==> comments == old(comments)
    {
      if pid !in posts {
        return Fail(NotFound);
      }
      if comment.None? || comment.value == "" {
        return Fail(BadRequest);
      }
      CommentAppended(comments, Comment(comment.value, actor, pid), pid);
      SaveComment(Comment(comment.value, actor, pid));
      r := Ok(());
    }

    /** `db.session.add(comment)` and `commit()` for a comment on an existing post. */
    method SaveComment(c: Comment)
      requires Valid() && c.author in users && c.post in posts
      modifies this`comments
      ensures Valid()
      ensures comments == old(comments) + [c]
    {
      comments := comments + [c];
    }

    /** `like_post`: checks, in this order, that the post exists, that it is not
        the actor's own, and that the actor's username is not already among its
        interactors; then appends one like and answers with the username. */
    method LikePost(actor: UserId, pid: PostId) returns (r: Outcome<string>)
      requires Valid() && actor in users
      modifies this`interactions
      ensures Valid()
      ensures pid !in posts ==> r == Fail(NotFound)
      ensures pid in posts && posts[pid].owner == actor ==> r == Fail(OwnPost)
      ensures pid in posts && posts[pid].owner != actor && old(LikedBy(interactions, actor, pid))
              ==> r == Fail(AlreadyLiked)
      ensures r.Ok? <==> pid in posts && posts[pid].owner != actor && !old(LikedBy(interactions, actor, pid))
      ensures r.Ok? ==> r.value == users[actor].username
      ensures r.Ok? ==> interactions == old(interactions) + [Interaction(actor, pid, Like)]
      ensures r.Ok? ==> Likers(interactions, pid) == old(Likers(interactions, pid)) + [actor]
      ensures !r.Ok? ==> interactions == old(interactions)
    {
      var refusal := LikeRefusal(actor, pid);
      if refusal.Some? {
        return Fail(refusal.value);
      }
      LikeAppended(interactions, Interaction(actor, pid, Like), pid);
      SaveLike(actor, pid);
      r := Ok(users[actor].username);
    }

    /** `like_post`'s checks, in order: the post exists, it is not the actor's own,
        and the actor's username is not among its interactors. */
    function LikeRefusal(actor: UserId, pid: PostId): (r: Option<Failure>)
      reads this, users.Values
      requires Valid() && actor in users
      ensures pid !in posts ==> r == Some(NotFound)
      ensures pid in posts && posts[pid].owner == actor ==> r == Some(OwnPost)
      ensures pid in posts && posts[pid].owner != actor && LikedBy(interactions, actor, pid) ==> r == Some(AlreadyLiked)
      ensures r.None? <==> pid in posts && posts[pid].owner != actor && !LikedBy(interactions, actor, pid)
    {
      if pid !in posts then Some(NotFound)
      else if posts[pid].owner == actor then Some(OwnPost)
      else if UsernameAmongInteractors(actor, pid) then Some(AlreadyLiked)
      else None
    }

    /** `like_post`'s duplicate check: the actor's username is among the usernames
        of the post's interactors. Usernames being unique, this is the same as the
        actor holding an interaction on the post. */
    predicate UsernameAmongInteractors(actor: UserId, pid: PostId)
      reads this, users.Values
      requires Valid() && actor in users
      ensures UsernameAmongInteractors(actor, pid) <==> LikedBy(interactions, actor, pid)
    {
      ColumnsAsMaps();
      NameCheckIsIdCheck(interactions, Names(), actor, pid);
      users[actor].username in LikerNames(interactions, Names(), pid)
    }

    /** `db.session.add(interaction)` and `commit()` for a like that passed the checks. */
    method SaveLike(actor: UserId, pid: PostId)
      requires Valid() && actor in users && pid in posts && posts[pid].owner != actor
      requires !LikedBy(interactions, actor, pid)
      modifies this`interactions
      ensures Valid()
      ensures interactions == old(interactions) + [Interaction(actor, pid, Like)]
    {
      NewLikeFits(actor, pid);
      interactions := interactions + [Interaction(actor, pid, Like)];
    }

    /** A like by a user who is not the post's owner and has no interaction on it
        keeps the table linked and keeps the like rules. */
    lemma NewLikeFits(actor: UserId, pid: PostId)
      requires InteractionsLinked(interactions) && LikeRules(interactions)
      requires actor in users && 0 < pid < nextPostId
      requires pid in posts ==> posts[pid].owner != actor
      requires !LikedBy(interactions, actor, pid)
      ensures InteractionsLinked(interactions + [Interaction(actor, pid, Like)])
      ensures LikeRules(interactions + [Interaction(actor, pid, Like)])
    {
      NewLikeKeepsNoDuplicates(interactions, actor, pid);
    }

    /** `view_comments`: the comments of an existing post, in row order. */
    function ViewComments(pid: PostId): (r: Outcome<seq<Comment>>)
      reads this
      ensures r.Ok? <==> pid in posts
      ensures r.Fail? ==> r.failure == NotFound
      ensures r.Ok? ==> forall c :: c in r.value <==> c in comments && c.post == pid
      ensures r.Ok? ==> forall c :: multiset(r.value)[c] == if c.post == pid then multiset(comments)[c] else 0
    {
      if pid in posts then
        assert forall c :: multiset(CommentsOn(comments, pid))[c] == if c.post == pid then multiset(comments)[c] else 0 by {
          forall c { CommentsOnCount(comments, pid, c); }
        }
        Ok(CommentsOn(comments, pid))
      else Fail(NotFound)
    }

    /** `post_likes`: the users whose interaction on an existing post is a like. */
    function PostLikes(pid: PostId): (r: Outcome<seq<UserId>>)
      reads this
      ensures r.Ok? <==> pid in posts
      ensures r.Fail? ==> r.failure == NotFound
      ensures r.Ok? ==> forall u :: u in r.value <==> Interaction(u, pid, Like) in interactions
      ensures r.Ok? ==> forall u :: multiset(r.value)[u] == multiset(interactions)[Interaction(u, pid, Like)]
    {
      if pid in posts then Ok(Likers(interactions, pid)) else Fail(NotFound)
    }

    /** In a valid store the likes page lists each user at most once. */
    lemma LikersListedOnce(pid: PostId)
      requires Valid() && pid in posts
      ensures PostLikes(pid).Ok? && Distinct(PostLikes(pid).value)
    {
      LikersDistinct(interactions, pid);
    }

    /** In a valid store the home page never shows a post as liked by its author. */
    lemma AuthorNeverLikes(pid: PostId)
      requires Valid() && pid in posts
      ensures !LikedBy(interactions, posts[pid].owner, pid)
    {
    }
  }
}
