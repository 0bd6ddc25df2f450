# Blog platform: verified model of the handlers, entities and forms

This project models the core of a small Flask blog. Users register and log in,
write posts, edit and delete their own posts, comment on any post, and like
other users' posts. The model has four modules, following the source files:

- `Forms` (`forms.dfy`, from `app/forms.py`): the validator chains of the
  registration, login and post forms, run the way WTForms runs them. A
  failing `DataRequired` clears the field's errors and stops the chain.
  `Length(min, max)` with no maximum is `max == -1`. `EqualTo` compares with
  the partner field. Lemmas turn each form's validity into a plain predicate
  on its fields.
- `Models` (`models.dfy`, from `app/models.py`): `User` is a class whose
  constructor and `SetPassword` assign its fields. `Post`, `Comment` and
  `Interaction` are row values. Password hashing is a key-derivation function
  `kdf` passed in, together with a salt.
- `Queries` (`queries.dfy`): the reads the handlers make as pure functions.
  These are a post's comments, its interactions, the users who liked it, the
  usernames behind its interactions, a user's posts, and the first row
  holding a column value.
- `Routes` (`routes.dfy`, from `routes.py`): a `Store` class holding the four
  tables, with one method per mutating handler and one function per read
  handler. Every handler takes the acting user explicitly and answers with an
  `Outcome`: `Ok(value)` or `Fail(failure)`. The store invariant `Valid()`
  says five things:
  - ids lie below the id counters;
  - every post, comment and interaction refers to a registered user;
  - no two users share a username or an email;
  - no post's owner holds an interaction on it;
  - no (user, post) pair occurs twice.
  Every mutating handler preserves `Valid()`.
- `Scenarios` (`scenarios.dfy`): client code that walks two users through
  registration, login, posting, liking, commenting, editing and deleting,
  using only the handlers' contracts.

## Model

| member | source | states |
|---|---|---|
| Forms.RunChain | app/forms.py:9-12 | every error a field reports is a validator of its chain that the data fails |
| Forms.RunChainEmpty | app/forms.py:9-12 | a chain leaves no errors iff it starts from none and every validator of the chain passes |
| Forms.FieldValidIff | app/forms.py:9-22 | a field has no errors iff every validator in its list passes |
| Forms.RegistrationRules | app/forms.py:8-12 | registration is valid iff the username is non-blank and 4 to 20 characters long, the email is non-blank and well formed, the password is non-blank and at least 6 characters long, and the confirmation equals the password |
| Forms.LoginRules | app/forms.py:15-17 | login is valid iff the email is non-blank and well formed and the password is non-blank |
| Forms.PostFormRules | app/forms.py:20-22 | the post form is valid iff the title and the content are both non-blank |
| Forms.RegisteredCredentialsPassLogin | app/forms.py:8-17 | an email and password that registration accepted also pass the login form |
| Forms.BlankFieldReportsOnlyRequired | app/forms.py:9-12 | a blank required field reports the `DataRequired` error alone |
| Models.PasswordRoundTrip | app/models.py:28-32 | a hash made from a password accepts it; under a collision-free derivation it accepts no other password |
| Models.User.constructor | app/models.py:23-26 | a new user holds the given email and username and, of the password, only its hash, which accepts that password |
| Models.User.CheckPassword | app/models.py:31-32 | a password checks iff re-deriving the hash from it with the stored salt gives back the stored hash |
| Models.User.SetPassword | app/models.py:28-29 | after setting a password the stored hash is derived from it and `CheckPassword` accepts it |
| Queries.FilterCount | routes.py:57 | a filtered table holds each kept row as many times as the table does, and no other row |
| Queries.CommentsOn | routes.py:57 | exactly the comments whose post is the given one |
| Queries.CommentsOnCount | routes.py:57 | a post's comment list holds each of its comments as many times as the table does, duplicates included |
| Queries.CommentAppended | routes.py:130-132 | a new comment extends its own post's comment list by itself, at the end, and leaves other posts' lists alone |
| Queries.InteractionsOn | app/models.py:41 | exactly the interactions on the given post, of any reaction |
| Queries.InteractionsOnCount | app/models.py:41 | a post's interaction list holds each of its interactions as many times as the table does |
| Queries.LikedByFindsInteraction | routes.py:60 | the liked flag holds iff the post's interactions include one by the user |
| Queries.Likers | routes.py:167 | a user is listed iff a `like` interaction by that user on the post exists, and as many times as such interactions exist |
| Queries.LikeAppended | routes.py:146-148 | a new interaction appends its user to its own post's likers when it is a like, and changes no other list |
| Queries.LikerNames | routes.py:59 | a username is listed iff some interaction on the post belongs to a user of that name |
| Queries.NameCheckIsIdCheck | routes.py:145 | with unique usernames, finding the actor's username among the post's interactors is the same as the actor holding an interaction on it |
| Queries.NewLikeKeepsNoDuplicates | routes.py:145-148 | a like by a user without an interaction on the post keeps (user, post) pairs unique |
| Queries.LikersDistinct | routes.py:167 | without duplicate pairs, no user appears twice among a post's likers |
| Queries.PostsOf | routes.py:75 | exactly the posts owned by the user, in ascending id order |
| Queries.FirstWith | routes.py:74 | the smallest id whose column value matches, or none when no row matches |
| Routes.Store.Register | routes.py:16-26 | an invalid form is refused; a valid form whose username or email is in use fails with the store unchanged; otherwise exactly one fresh user is added under the next id, with the given username and email and the hash of the password |
| Routes.Store.ColumnsAsMaps | app/models.py:18-19 | in a valid store the username and email columns are injective, and every interacting user has a username |
| Routes.Store.Login | routes.py:33-44 | an invalid form is refused; otherwise login succeeds iff some user has the email and the password checks against that user's hash, and it answers with such a user; every other case is one `InvalidCredentials` answer |
| Routes.Store.Home | routes.py:50-63 | every post, in ascending id order; each post's comments; its liked flag, true iff the actor holds an interaction on it; and the usernames behind all its interactions |
| Routes.Store.UserProfile | routes.py:72-76 | not found iff no user has the username; otherwise exactly the posts whose owner has that username, in id order |
| Routes.Store.EditPost | routes.py:79-95 | not found, then not the owner, then an invalid form, each leaving the posts unchanged; otherwise only that post changes: its title and content come from the request, falling back to the post's own, and its owner is kept |
| Routes.Store.Submitted | routes.py:87-88 | the form filled from the post and then the request validates iff each field, taken from the request or else from the post, is non-blank; an empty request reproduces the post |
| Routes.Store.ReplacePost | routes.py:89-91 | writing back a post that keeps its owner replaces only that entry and keeps the store valid |
| Routes.Store.DeletePost | routes.py:98-108 | not found, then not the owner, each leaving the posts unchanged; otherwise exactly that post is removed |
| Routes.Store.AddPost | routes.py:111-121 | a missing title or content is a bad request and changes nothing; otherwise one post with the given title and content, owned by the actor, is added under the next id |
| Routes.Store.AddComment | routes.py:124-137 | an unknown post is not found; a missing or empty comment is a bad request; in both cases nothing changes; otherwise exactly one comment with that body, by the actor, on that post is appended |
| Routes.Store.SaveComment | routes.py:130-132 | appending a comment by a registered user on an existing post keeps the store valid |
| Routes.Store.LikePost | routes.py:140-154 | not found, then own post, then already liked, each changing nothing; otherwise exactly one `like` interaction by the actor on the post is appended, the actor joins the end of the post's likers, and the answer is the actor's username |
| Routes.Store.LikeRefusal | routes.py:143-145 | the refusal `like_post` gives, in its order of checks; none iff the post exists, is not the actor's, and the actor holds no interaction on it |
| Routes.Store.UsernameAmongInteractors | routes.py:145 | the username test holds iff the actor holds an interaction on the post |
| Routes.Store.SaveLike | routes.py:146-148 | appending a like that passed the checks keeps the store valid |
| Routes.Store.NewLikeFits | routes.py:144-148 | a like by a non-owner with no interaction on the post keeps interactions linked, free of self-likes and free of duplicate pairs |
| Routes.Store.ViewComments | routes.py:157-161 | not found iff the post does not exist; otherwise exactly the comments on that post, each as many times as the table holds it |
| Routes.Store.PostLikes | routes.py:164-168 | not found iff the post does not exist; otherwise exactly the users with a `like` interaction on it, each once per such interaction |
| Routes.Store.LikersListedOnce | routes.py:164-168 | in a valid store the likes page lists no user twice |
| Routes.Store.AuthorNeverLikes | routes.py:144 | in a valid store a post's author never holds an interaction on it, so the home page never shows it as liked by them |

## Left out

- Flask routing, templates, `flash`, redirects and HTTP status codes. Each
  handler's answer is an `Outcome`. GET requests, which only render a form,
  are not modelled.
- Sessions and `flask_login`: `current_user`, `login_required`, `login_user`,
  `logout` and the user loader. The acting user is a parameter that names a
  registered user. So the model does not capture that `add_post` and `home`
  carry no `login_required` and would fail on an anonymous request.
- `login` redirecting a user who is already logged in. The model has no
  session.
- `get_started` and `main.py`, which only render a page or configure the
  application.
- CSRF tokens of the Flask-WTF forms.
- Werkzeug's password hashing. The digest function is the parameter `kdf`,
  and the random salt is a parameter of `Register`. A stored hash accepts its
  own password for every `kdf`. Rejecting every other password rests on an
  idealisation: `kdf` is assumed collision-free, which unbounded digests allow
  but a fixed-length digest never is.
- The `Email()` validator, an external library. Its verdict is the parameter
  `isEmail`.
- Routes.Store.DeletePost: does not state what happens to the deleted post's
  comments and interactions. The relationships declare no cascade, so this is
  left to the ORM's defaults. The model keeps those rows, and the handlers
  answer not found for that post id afterwards. The deleted post's rows are
  the reason the no-self-like rule in `Valid()` is stated only for
  interactions whose post still exists.
- Id reuse: the model hands out ids from counters that only grow. SQLite may
  reuse the largest id after a delete.
- Routes.Store.Register: a duplicate username or email makes the unique
  constraint raise an unhandled `IntegrityError` in the source (a server
  error). The model answers `Fail(IntegrityError)` and leaves the store as it
  was, as the rolled-back transaction does.
- Column lengths (`String(64)`, `String(140)`, `String(10)`), which SQLite
  does not enforce.
- The race between `like_post`'s check and its insert under concurrent
  requests.
- The order of `Post.query.all()` and `filter_by(...).all()`: SQL leaves it
  open. The model lists rows in ascending id order.
- Forms.IsSpace: covers the whitespace characters Python's `str.strip()`
  removes, as listed there, and no locale-specific behaviour.

Behaviour of the code worth noting:

- `add_post` reads `title` and `content` straight from the request, without
  the post form. A blank title or content is accepted, and only a missing
  field is refused.
- Deleting a post does not cascade to its comments and interactions, because
  no cascade is declared.
- `add_comment` refuses only a missing or empty comment. A whitespace-only
  comment is accepted.
