/** The table-level meaning of the handlers of
    Sources/App/Controllers/UserController.swift: the records the handlers
    exchange, token rotation and revocation, the field overlay of `update`,
    the follow queries and the feed, with the lemmas that say what they do. */
module Social {
  import opened Outcomes
  import opened Crypto
  import opened Users
  import opened Tokens
  import opened Connections
  import opened Microposts

  /** The login body; a missing field decodes as nil. */
  datatype UserCredential = UserCredential(email: Option<string>, password: Option<string>)

  /** The update body: each field is optional. */
  datatype UserPartial = UserPartial(name: Option<string>, email: Option<string>, password: Option<string>)

  /** What login and create answer with: the token string and the account. */
  datatype PublicUser = PublicUser(token: string, user: User)

  /** What `show` answers with. */
  datatype UserProfile = UserProfile(user: User, microposts: seq<Micropost>, followingCount: nat, followerCount: nat)

  /** What `didFollow` answers with. */
  datatype UserFollowing = UserFollowing(didFollow: bool)

  /** One entry of the feed: a post and the followed user who wrote it. */
  datatype UserFeed = UserFeed(user: User, micropost: Micropost)

  // ---------------------------------------------------------------- sessions

  /** Login's token rotation: every token of `issued.userId` is deleted, then
      `issued` is saved. */
  function Rotate(tokens: seq<Token>, issued: Token): seq<Token> {
    DeleteOwnedBy(tokens, issued.userId) + [issued]
  }

  /** After a rotation the user owns exactly one token, the issued one. */
  lemma RotateLeavesOnlyIssued(tokens: seq<Token>, issued: Token)
    ensures OwnedBy(Rotate(tokens, issued), issued.userId) == [issued]
  {
    OwnedByAppend(DeleteOwnedBy(tokens, issued.userId), issued, issued.userId);
    DeleteOwnedByLeavesNone(tokens, issued.userId);
  }

  /** A rotation leaves every other user's tokens as they were. */
  lemma RotateKeepsOthers(tokens: seq<Token>, issued: Token, other: int)
    requires other != issued.userId
    ensures OwnedBy(Rotate(tokens, issued), other) == OwnedBy(tokens, other)
  {
    OwnedByAppend(DeleteOwnedBy(tokens, issued.userId), issued, other);
    DeleteOwnedByKeepsOthers(tokens, issued.userId, other);
  }

  /** A issued token string that no stored row carries authenticates as the
      user it was issued to. */
  lemma RotateAuthenticates(tokens: seq<Token>, users: seq<User>, issued: Token)
    requires forall t :: t in tokens ==> t.token != issued.token
    ensures Authenticate(Rotate(tokens, issued), users, issued.token) == FindById(users, issued.userId)
  {
    FindByBearerAppend(DeleteOwnedBy(tokens, issued.userId), issued);
  }

  /** After logout no bearer string authenticates as that user any more. */
  lemma RevokedCannotAuthenticate(tokens: seq<Token>, users: seq<User>, userId: int, bearer: string)
    ensures var r := Authenticate(DeleteOwnedBy(tokens, userId), users, bearer);
            r.Some? ==> r.value.id != Some(userId)
  {
  }

  /** Destroy leaves the user's tokens behind, but with unique ids none of
      them authenticates any more: the user they name is gone. */
  lemma RemovedUserCannotAuthenticate(tokens: seq<Token>, users: seq<User>, i: nat, bearer: string)
    requires UniqueIds(users) && i < |users|
    ensures var r := Authenticate(tokens, users[..i] + users[i + 1..], bearer);
            r.Some? ==> r.value.id != users[i].id
  {
    var rest := users[..i] + users[i + 1..];
    var r := Authenticate(tokens, rest, bearer);
    if r.Some? {
      var k :| 0 <= k < |rest| && rest[k] == r.value;
      if k < i {
        assert rest[k] == users[k];
      } else {
        assert rest[k] == users[k + 1];
      }
    }
  }

  // ------------------------------------------------------------------ update

  /** `update`'s overlay: a present field overwrites, an absent one keeps the
      stored value; a present password is hashed first. */
  function Overlay(u: User, body: UserPartial): (r: User)
    ensures r.id == u.id && r.admin == u.admin
    ensures body.name.None? ==> r.name == u.name
    ensures body.name.Some? ==> r.name == body.name.value
    ensures body.email.None? ==> r.email == u.email
    ensures body.email.Some? ==> r.email == body.email.value
    ensures body.password.None? ==> r.password == u.password
    ensures body.password.Some? ==> Verify(body.password.value, r.password)
  {
    u.(name := body.name.GetOr(u.name),
       email := body.email.GetOr(u.email),
       password := if body.password.Some? then Hash(body.password.value) else u.password)
  }

  /** Sending the same partial body twice leaves the same name, email, id
      and admin flag as sending it once, and the password the body carries
      still verifies; without a password in the body the row is the same. */
  lemma OverlayIdempotent(u: User, body: UserPartial)
    ensures var once, twice := Overlay(u, body), Overlay(Overlay(u, body), body);
            && twice.(password := once.password) == once
            && (body.password.Some? ==> Verify(body.password.value, twice.password))
            && (body.password.None? ==> twice == once)
  {
  }

  // --------------------------------------------------------- follow graph

  /** `unfollow`: every pivot row (followerId, followeeId) is detached. */
  function Unfollowed(edges: seq<UserConnection>, followerId: int, followeeId: int): (r: seq<UserConnection>)
    ensures forall e :: e in r <==> e in edges && e != UserConnection(followerId, followeeId)
    ensures forall e :: e != UserConnection(followerId, followeeId) ==> multiset(r)[e] == multiset(edges)[e]
    ensures |r| <= |edges|
  {
    if edges == [] then []
    else
      var rest := Unfollowed(edges[1..], followerId, followeeId);
      assert forall e :: e in edges ==> e == edges[0] || e in edges[1..];
      assert edges == [edges[0]] + edges[1..];
      if edges[0] == UserConnection(followerId, followeeId) then rest else [edges[0]] + rest
  }

  /** One unfollow undoes any number of follows of the same pair and leaves
      every other edge where it was. */
  lemma {:induction false} UnfollowUndoesFollow(edges: seq<UserConnection>, c: UserConnection)
    ensures Unfollowed(edges + [c], c.leftID, c.rightID) == Unfollowed(edges, c.leftID, c.rightID)
  {
    if edges != [] {
      assert (edges + [c])[1..] == edges[1..] + [c];
      UnfollowUndoesFollow(edges[1..], c);
    }
  }

  /** Unfollowing leaves every other user's following list as it was, in
      order and with its repeated rows. */
  lemma {:induction false} UnfollowedKeepsOthersFollowing(users: seq<User>, edges: seq<UserConnection>,
                                                         followerId: int, followeeId: int, other: int)
    requires other != followerId
    ensures Following(users, Unfollowed(edges, followerId, followeeId), other) == Following(users, edges, other)
  {
    if edges != [] {
      UnfollowedKeepsOthersFollowing(users, edges[1..], followerId, followeeId, other);
    }
  }

  /** Unfollowing leaves the follower lists of everybody but the followee as
      they were, in order and with their repeated rows. */
  lemma {:induction false} UnfollowedKeepsOthersFollowers(users: seq<User>, edges: seq<UserConnection>,
                                                         followerId: int, followeeId: int, other: int)
    requires other != followeeId
    ensures Followers(users, Unfollowed(edges, followerId, followeeId), other) == Followers(users, edges, other)
  {
    if edges != [] {
      UnfollowedKeepsOthersFollowers(users, edges[1..], followerId, followeeId, other);
    }
  }

  /** How many of `users` carry the id `id`. */
  function CountWithId(users: seq<User>, id: int): (n: nat)
    ensures n <= |users|
    ensures n > 0 <==> exists u :: u in users && u.id == Some(id)
  {
    if users == [] then 0
    else
      assert forall u :: u in users ==> u == users[0] || u in users[1..];
      (if users[0].id == Some(id) then 1 else 0) + CountWithId(users[1..], id)
  }

  /** `didFollow`: the follower's `following` rows, filtered on rightID,
      counted, compared with zero. */
  predicate DidFollow(users: seq<User>, edges: seq<UserConnection>, followerId: int, followeeId: int) {
    CountWithId(Following(users, edges, followerId), followeeId) > 0
  }

  /** For a stored followee, `didFollow` holds exactly when some pivot row
      (follower, followee) exists. */
  lemma DidFollowIff(users: seq<User>, edges: seq<UserConnection>, followerId: int, followeeId: int)
    requires FindById(users, followeeId).Some?
    ensures DidFollow(users, edges, followerId, followeeId) <==> UserConnection(followerId, followeeId) in edges
  {
    if UserConnection(followerId, followeeId) in edges {
      var followee := FindById(users, followeeId).value;
      FollowingIncludes(users, edges, followerId, followee);
    }
  }

  // -------------------------------------------------------------------- feed

  /** `user.microposts.query(on:).sort(\.createAt, .descending).all()` */
  function Timeline(posts: seq<Micropost>, user: User): seq<Micropost> {
    SortNewestFirst(PostsBy(posts, user))
  }

  /** `posts.compactMap { UserFeed(user: user, micropost: $0) }` */
  function Block(user: User, posts: seq<Micropost>): seq<UserFeed> {
    seq(|posts|, i requires 0 <= i < |posts| => UserFeed(user, posts[i]))
  }

  /** The reduce `result += posts` over the followed users, in order: each
      user's timeline is appended as one block. */
  function FeedBlocks(followed: seq<User>, posts: seq<Micropost>): seq<UserFeed> {
    if followed == [] then []
    else
      var last := followed[|followed| - 1];
      FeedBlocks(followed[..|followed| - 1], posts) + Block(last, Timeline(posts, last))
  }

  /** `feeds`: the blocks of the users the current user follows. */
  function Feed(users: seq<User>, edges: seq<UserConnection>, posts: seq<Micropost>, userId: int): seq<UserFeed> {
    FeedBlocks(Following(users, edges, userId), posts)
  }

  /** The number of posts the followed users wrote, one term per entry. */
  function PostCount(followed: seq<User>, posts: seq<Micropost>): nat {
    if followed == [] then 0
    else PostCount(followed[..|followed| - 1], posts) + |PostsBy(posts, followed[|followed| - 1])|
  }

  /** The feed holds exactly as many entries as the followed users wrote posts. */
  lemma {:induction false} FeedLength(followed: seq<User>, posts: seq<Micropost>)
    ensures |FeedBlocks(followed, posts)| == PostCount(followed, posts)
  {
    if followed != [] {
      var last := followed[|followed| - 1];
      FeedLength(followed[..|followed| - 1], posts);
      SortNewestFirstPermutes(PostsBy(posts, last));
      assert |multiset(Timeline(posts, last))| == |multiset(PostsBy(posts, last))|;
    }
  }

  /** The feed of a prefix of the followed users is a prefix of the feed. */
  lemma {:induction false} FeedBlocksPrefix(followed: seq<User>, posts: seq<Micropost>, n: nat)
    requires n <= |followed|
    ensures var head := FeedBlocks(followed[..n], posts);
            |head| <= |FeedBlocks(followed, posts)| && FeedBlocks(followed, posts)[..|head|] == head
    decreases |followed|
  {
    if n < |followed| {
      var init := followed[..|followed| - 1];
      assert init[..n] == followed[..n];
      FeedBlocksPrefix(init, posts, n);
    } else {
      assert followed[..n] == followed;
    }
  }

  /** The k-th followed user's posts sit in the feed as one contiguous block,
      right after the blocks of the users before them, newest first. */
  lemma FeedBlockAt(followed: seq<User>, posts: seq<Micropost>, k: nat)
    requires k < |followed|
    ensures var start := |FeedBlocks(followed[..k], posts)|;
            var block := Block(followed[k], Timeline(posts, followed[k]));
            && start + |block| <= |FeedBlocks(followed, posts)|
            && FeedBlocks(followed, posts)[start..start + |block|] == block
            && NewestFirst(Timeline(posts, followed[k]))
  {
    var u := followed[k];
    SortNewestFirstSorted(PostsBy(posts, u));
    var head, block := FeedBlocks(followed[..k], posts), Block(u, Timeline(posts, u));
    FeedBlocksSnoc(followed[..k], u, posts);
    assert followed[..k] + [u] == followed[..k + 1];
    assert FeedBlocks(followed[..k + 1], posts) == head + block;
    FeedBlocksPrefix(followed, posts, k + 1);
    SliceAfterPrefix(FeedBlocks(followed, posts), head, block);
  }

  /** The part of a sequence that follows a known prefix `head + block`. */
  lemma SliceAfterPrefix<T>(whole: seq<T>, head: seq<T>, block: seq<T>)
    requires |head| + |block| <= |whole| && whole[..|head| + |block|] == head + block
    ensures whole[|head|..|head| + |block|] == block
  {
    forall k | 0 <= k < |block|
      ensures whole[|head|..|head| + |block|][k] == block[k]
    {
      assert whole[|head| + k] == (head + block)[|head| + k];
    }
  }

  /** A block pairs its user with each of the given posts and nothing else. */
  lemma BlockItems(user: User, posts: seq<Micropost>, item: UserFeed)
    ensures item in Block(user, posts) <==> item.user == user && item.micropost in posts
  {
    if item in Block(user, posts) {
      var i :| 0 <= i < |posts| && Block(user, posts)[i] == item;
    }
    if item.user == user && item.micropost in posts {
      var i :| 0 <= i < |posts| && posts[i] == item.micropost;
      assert Block(user, posts)[i] == item;
    }
  }

  /** A user's timeline holds exactly the posts that user wrote. */
  lemma TimelineItems(posts: seq<Micropost>, user: User, p: Micropost)
    ensures p in Timeline(posts, user) <==> p in posts && user.id == Some(p.userId)
  {
    SortNewestFirstPermutes(PostsBy(posts, user));
    assert p in Timeline(posts, user) <==> p in multiset(PostsBy(posts, user));
  }

  /** An entry is in the feed exactly when its user is followed and its post
      is one that user wrote. */
  lemma {:induction false} FeedItems(followed: seq<User>, posts: seq<Micropost>, item: UserFeed)
    ensures item in FeedBlocks(followed, posts) <==>
            item.user in followed && item.micropost in posts && item.user.id == Some(item.micropost.userId)
  {
    if followed != [] {
      var init := followed[..|followed| - 1];
      var last := followed[|followed| - 1];
      FeedItems(init, posts, item);
      BlockItems(last, Timeline(posts, last), item);
      TimelineItems(posts, last, item.micropost);
      assert followed == init + [last];
      assert item in FeedBlocks(followed, posts) <==>
             item in FeedBlocks(init, posts) || item in Block(last, Timeline(posts, last));
    }
  }

  /** The whole feed is ordered newest first. */
  ghost predicate FeedNewestFirst(feed: seq<UserFeed>) {
    forall i, j :: 0 <= i < j < |feed| ==> feed[i].micropost.createAt >= feed[j].micropost.createAt
  }

  /** Following one more user appends that user's block. */
  lemma FeedBlocksSnoc(init: seq<User>, u: User, posts: seq<Micropost>)
    ensures FeedBlocks(init + [u], posts) == FeedBlocks(init, posts) + Block(u, Timeline(posts, u))
  {
    var followed := init + [u];
    assert followed[..|followed| - 1] == init;
  }

  /** Following two users gives the first one's block, then the second's. */
  lemma FeedOfTwo(a: User, b: User, posts: seq<Micropost>)
    ensures FeedBlocks([a, b], posts) == Block(a, Timeline(posts, a)) + Block(b, Timeline(posts, b))
  {
    FeedBlocksSnoc([], a, posts);
    FeedBlocksSnoc([a], b, posts);
    assert [] + [a] == [a] && [a] + [b] == [a, b];
  }

  /** The blocks are concatenated, not merged: following A and then B, if
      some post of A is older than some post of B, the feed is not newest
      first (A's posts at 5 and 3 and B's at 4 and 1 give 5, 3, 4, 1). */
  lemma FeedIsNotMerged(a: User, b: User, posts: seq<Micropost>, p: Micropost, q: Micropost)
    requires p in posts && a.id == Some(p.userId)
    requires q in posts && b.id == Some(q.userId)
    requires p.createAt < q.createAt
    ensures !FeedNewestFirst(FeedBlocks([a, b], posts))
  {
    var ta, tb := Timeline(posts, a), Timeline(posts, b);
    TimelineItems(posts, a, p);
    TimelineItems(posts, b, q);
    BlockItems(a, ta, UserFeed(a, p));
    BlockItems(b, tb, UserFeed(b, q));
    FeedOfTwo(a, b, posts);
    var ba, bb := Block(a, ta), Block(b, tb);
    assert (ba + bb)[..|ba|] == ba && (ba + bb)[|ba|..] == bb;
    OlderBeforeNewer(ba + bb, UserFeed(a, p), UserFeed(b, q), |ba|);
  }

  /** An older entry placed before a newer one breaks the newest-first order. */
  lemma OlderBeforeNewer(feed: seq<UserFeed>, x: UserFeed, y: UserFeed, split: nat)
    requires split <= |feed| && x in feed[..split] && y in feed[split..]
    requires x.micropost.createAt < y.micropost.createAt
    ensures !FeedNewestFirst(feed)
  {
    var i :| 0 <= i < split && feed[..split][i] == x;
    var j :| 0 <= j < |feed| - split && feed[split..][j] == y;
    assert feed[i] == x && feed[split + j] == y;
  }
}
