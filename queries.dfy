/**
  The reads the request handlers make of the tables, as functions on values.

  Tables of comments and interactions are sequences in row order (the order
  in which the database returns a relationship's rows); users and posts are
  maps from id to row.
 */
module Queries {
  import opened Models

  /** The elements of `s` that satisfy `keep`, in their order in `s`. */
  function Filter<T(!new)>(s: seq<T>, keep: T -> bool): (r: seq<T>)
    ensures forall x :: x in r <==> x in s && keep(x)
    ensures |r| <= |s|
  {
    if s == [] then []
    else Filter(s[..|s| - 1], keep) + (if keep(s[|s| - 1]) then [s[|s| - 1]] else [])
  }

  /** The filtered view holds each kept element as many times as `s` does. */
  lemma {:induction false} FilterCount<T(!new)>(s: seq<T>, keep: T -> bool, x: T)
    ensures multiset(Filter(s, keep))[x] == if keep(x) then multiset(s)[x] else 0
  {
    if s != [] {
      var init, last := s[..|s| - 1], s[|s| - 1];
      assert s == init + [last];
      FilterCount(init, keep, x);
    }
  }

  /** Appending a row extends the filtered view by that row alone, if it is kept. */
  lemma FilterSnoc<T(!new)>(s: seq<T>, x: T, keep: T -> bool)
    ensures Filter(s + [x], keep) == Filter(s, keep) + (if keep(x) then [x] else [])
  {
    assert (s + [x])[..|s + [x]| - 1] == s;
  }

  /** `post.comments`: the comments whose post is `pid`. */
  function CommentsOn(s: seq<Comment>, pid: PostId): (r: seq<Comment>)
    ensures forall c :: c in r <==> c in s && c.post == pid
  {
    Filter(s, (c: Comment) => c.post == pid)
  }

  /** `post.comments` holds each comment on `pid` as many times as the table does,
      and no other. */
  lemma CommentsOnCount(s: seq<Comment>, pid: PostId, c: Comment)
    ensures multiset(CommentsOn(s, pid))[c] == if c.post == pid then multiset(s)[c] else 0
  {
    FilterCount(s, (c: Comment) => c.post == pid, c);
  }

  /** A new comment changes the comment list of its own post only, by appending itself. */
  lemma CommentAppended(s: seq<Comment>, x: Comment, pid: PostId)
    ensures CommentsOn(s + [x], pid) == CommentsOn(s, pid) + (if x.post == pid then [x] else [])
  {
    FilterSnoc(s, x, (c: Comment) => c.post == pid);
  }

  /** `post.interactions`: the interactions whose post is `pid`, of any reaction. */
  function InteractionsOn(s: seq<Interaction>, pid: PostId): (r: seq<Interaction>)
    ensures forall i :: i in r <==> i in s && i.post == pid
  {
    Filter(s, (i: Interaction) => i.post == pid)
  }

  /** `post.interactions` holds each interaction on `pid` as many times as the
      table does, and no other. */
  lemma InteractionsOnCount(s: seq<Interaction>, pid: PostId, i: Interaction)
    ensures multiset(InteractionsOn(s, pid))[i] == if i.post == pid then multiset(s)[i] else 0
  {
    FilterCount(s, (i: Interaction) => i.post == pid, i);
  }

  /** `post_likes`' list: the user of each interaction on `pid` whose reaction is
      a like, in row order. */
  function Likers(s: seq<Interaction>, pid: PostId): (r: seq<UserId>)
    ensures forall u :: u in r <==> Interaction(u, pid, Like) in s
    ensures forall u :: multiset(r)[u] == multiset(s)[Interaction(u, pid, Like)]
  {
    if s == [] then []
    else
      var last := s[|s| - 1];
      assert s == s[..|s| - 1] + [last];
      Likers(s[..|s| - 1], pid) + (if last.post == pid && last.reaction == Like then [last.user] else [])
  }

  /** Every interaction's user has a username in `names`. */
  ghost predicate NamesCover(s: seq<Interaction>, names: map<UserId, string>) {
    forall i :: i in s ==> i.user in names
  }

  /** The home page's liker list of `pid`: the username behind each of its interactions. */
  function LikerNames(s: seq<Interaction>, names: map<UserId, string>, pid: PostId): (r: seq<string>)
    requires NamesCover(s, names)
    ensures forall n :: n in r <==> exists i :: i in s && i.post == pid && names[i.user] == n
  {
    var on := InteractionsOn(s, pid);
    var r := seq(|on|, k requires 0 <= k < |on| => names[on[k].user]);
    assert forall n :: n in r ==> exists i :: i in s && i.post == pid && names[i.user] == n by {
      forall n | n in r ensures exists i :: i in s && i.post == pid && names[i.user] == n {
        var k :| 0 <= k < |r| && r[k] == n;
        assert on[k] in on;
      }
    }
    assert forall i :: i in s && i.post == pid ==> names[i.user] in r by {
      forall i | i in s && i.post == pid ensures names[i.user] in r {
        var k :| 0 <= k < |on| && on[k] == i;
        assert r[k] == names[i.user];
      }
    }
    r
  }

  /** The home page's liked flag: some interaction of `uid` on `pid` exists. */
  predicate LikedBy(s: seq<Interaction>, uid: UserId, pid: PostId) {
    exists k :: 0 <= k < |s| && s[k].user == uid && s[k].post == pid
  }

  /** The liked flag holds exactly when the query for an interaction of `uid`
      among the post's interactions finds one. */
  lemma LikedByFindsInteraction(s: seq<Interaction>, uid: UserId, pid: PostId)
    ensures LikedBy(s, uid, pid) <==> exists i :: i in InteractionsOn(s, pid) && i.user == uid
  {
    if LikedBy(s, uid, pid) {
      var k :| 0 <= k < |s| && s[k].user == uid && s[k].post == pid;
      assert s[k] in InteractionsOn(s, pid);
    }
  }

  /** No two users share a name. */
  ghost predicate Injective(names: map<UserId, string>) {
    forall a, b :: a in names && b in names && names[a] == names[b] ==> a == b
  }

  /** Since usernames are unique, looking for the actor's username among a post's
      likers decides the same as looking for an interaction by the actor's id. */
  lemma {:induction false} NameCheckIsIdCheck(s: seq<Interaction>, names: map<UserId, string>, uid: UserId, pid: PostId)
    requires NamesCover(s, names) && Injective(names) && uid in names
    ensures names[uid] in LikerNames(s, names, pid) <==> LikedBy(s, uid, pid)
  {
    if names[uid] in LikerNames(s, names, pid) {
      var i :| i in s && i.post == pid && names[i.user] == names[uid];
      var k :| 0 <= k < |s| && s[k] == i;
      assert s[k].user == uid;
    }
    if LikedBy(s, uid, pid) {
      var k :| 0 <= k < |s| && s[k].user == uid && s[k].post == pid;
      assert s[k] in s;
    }
  }

  /** No (user, post) pair has two interactions. */
  ghost predicate NoDuplicateInteractions(s: seq<Interaction>) {
    forall j, k :: 0 <= j < k < |s| ==> s[j].user != s[k].user || s[j].post != s[k].post
  }

  /** A like by a user with no interaction on that post keeps pairs unique. */
  lemma NewLikeKeepsNoDuplicates(s: seq<Interaction>, uid: UserId, pid: PostId)
    requires NoDuplicateInteractions(s) && !LikedBy(s, uid, pid)
    ensures NoDuplicateInteractions(s + [Interaction(uid, pid, Like)])
  {
  }

  ghost predicate Distinct<T>(s: seq<T>) {
    forall j, k :: 0 <= j < k < |s| ==> s[j] != s[k]
  }

  /** Without duplicate interactions, no user is listed twice among a post's likers. */
  lemma {:induction false} LikersDistinct(s: seq<Interaction>, pid: PostId)
    requires NoDuplicateInteractions(s)
    ensures Distinct(Likers(s, pid))
  {
    if s != [] {
      var init, last := s[..|s| - 1], s[|s| - 1];
      assert s == init + [last];
      LikersDistinct(init, pid);
      LikeAppended(init, last, pid);
      if last.post == pid && last.reaction == Like {
        assert Likers(s, pid) == Likers(init, pid) + [last.user];
      }
    }
  }

  /** A new interaction changes the liker list of its own post only, by appending
      its user when it is a like. */
  lemma LikeAppended(s: seq<Interaction>, x: Interaction, pid: PostId)
    ensures Likers(s + [x], pid)
         == Likers(s, pid) + (if x.post == pid && x.reaction == Like then [x.user] else [])
  {
    assert (s + [x])[..|s + [x]| - 1] == s;
  }

  /** Strictly ascending ids. */
  ghost predicate Ascending(s: seq<nat>) {
    forall j, k :: 0 <= j < k < |s| ==> s[j] < s[k]
  }

  /** `Post.query.filter_by(author=user)`: the ids below `n` of the posts owned by
      `uid`, in ascending id order. */
  function PostsOf(posts: map<PostId, Post>, uid: UserId, n: nat): (r: seq<PostId>)
    ensures forall p :: p in r <==> p < n && p in posts && posts[p].owner == uid
    ensures forall j :: 0 <= j < |r| ==> r[j] < n
    ensures Ascending(r)
  {
    if n == 0 then []
    else PostsOf(posts, uid, n - 1) + (if n - 1 in posts && posts[n - 1].owner == uid then [n - 1] else [])
  }

  /** `filter_by(column=v).first()`: the smallest id below `n` whose entry is `v`. */
  function FirstWith(m: map<nat, string>, v: string, n: nat): (r: Option<nat>)
    ensures r.Some? ==> r.value < n && r.value in m && m[r.value] == v
    ensures r.Some? ==> forall j :: j < r.value && j in m ==> m[j] != v
    ensures r.None? ==> forall j :: j < n && j in m ==> m[j] != v
  {
    if n == 0 then None
    else match FirstWith(m, v, n - 1)
      case Some(id) => Some(id)
      case None => if n - 1 in m && m[n - 1] == v then Some(n - 1) else None
  }
}
