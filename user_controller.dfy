/** The handlers of Sources/App/Controllers/UserController.swift, each one
    sequential step on an in-memory store that stands for the database. The
    authenticated user the token middleware attaches to a request is an
    explicit `session` argument; a route parameter `User.parameter` is the
    id `targetId`. */
module UserController {
  import opened Outcomes
  import opened Crypto
  import opened Users
  import opened Tokens
  import opened Connections
  import opened Microposts
  import opened Social

  /** The token middleware only attaches users it loaded from the users
      table, and those carry an id. */
  predicate SessionHasId(session: Option<User>) {
    session.Some? ==> session.value.id.Some?
  }

  /** The store's tables and its id counters, as one value. */
  datatype Tables = Tables(
    users: seq<User>,
    tokens: seq<Token>,
    edges: seq<UserConnection>,
    posts: seq<Micropost>,
    nextUserId: int,
    nextTokenId: int)

  class Store {
    var users: seq<User>
    var tokens: seq<Token>
    var edges: seq<UserConnection>
    var posts: seq<Micropost>
    var nextUserId: int
    var nextTokenId: int

    /** Every stored user has its own id below the counter, a valid name
        (both create and update validate before they write) and a password
        that is a digest (both hash before they write); every stored token has
        an id below its counter; no stored edge is a self-edge. */
    ghost predicate Valid()
      reads this
    {
      && UniqueIds(users)
      && (forall u :: u in users ==> u.id.Some? && u.id.value < nextUserId && IsValid(u))
      && (forall u :: u in users ==> exists p :: u.password == Hash(p))
      && (forall t :: t in tokens ==> t.id.Some? && t.id.value < nextTokenId)
      && (forall e :: e in edges ==> e.leftID != e.rightID)
    }

    ghost function State(): Tables
      reads this
    {
      Tables(users, tokens, edges, posts, nextUserId, nextTokenId)
    }

    /** An empty database whose posts table holds `posts`; row ids start at 1. */
    constructor (posts: seq<Micropost>)
      ensures Valid()
      ensures State() == Tables([], [], [], posts, 1, 1)
    {
      users, tokens, edges := [], [], [];
      this.posts := posts;
      nextUserId, nextTokenId := 1, 1;
    }

    /** `user.create(on:)`: the row gets the next id and is appended. */
    method SaveUser(u: User) returns (saved: User)
      modifies this
      ensures saved == u.(id := Some(old(nextUserId)))
      ensures State() == old(State()).(users := old(users) + [saved], nextUserId := old(nextUserId) + 1)
    {
      saved := u.(id := Some(nextUserId));
      users := users + [saved];
      nextUserId := nextUserId + 1;
    }

    /** `token.save(on:)`: the row gets the next id and is appended. */
    method SaveToken(t: Token) returns (saved: Token)
      modifies this
      ensures saved == t.(id := Some(old(nextTokenId)))
      ensures State() == old(State()).(tokens := old(tokens) + [saved], nextTokenId := old(nextTokenId) + 1)
    {
      saved := t.(id := Some(nextTokenId));
      tokens := tokens + [saved];
      nextTokenId := nextTokenId + 1;
    }

    /** `login`: the first user whose email is exactly the given one (nil
        reads as ""), then the password check, then the rotation: all of the
        user's tokens are deleted and a new one is saved. */
    method Login(credential: UserCredential, randomToken: nat -> string) returns (r: Result<PublicUser>)
      requires Valid()
      modifies this
      ensures Valid()
      ensures var found := FindByEmail(old(users), credential.email.GetOr(""));
              && (found.None? ==> r == Err(NotFound) && State() == old(State()))
              && (found.Some? && !Verify(credential.password.GetOr(""), found.value.password) ==>
                    r == Err(Unauthorized) && State() == old(State()))
              && (found.Some? && Verify(credential.password.GetOr(""), found.value.password) ==>
                    var issued := Token(Some(old(nextTokenId)), randomToken(RandomTokenLength), found.value.id.value);
                    && r == Ok(PublicUser(issued.token, found.value))
                    && State() == old(State()).(tokens := Rotate(old(tokens), issued), nextTokenId := old(nextTokenId) + 1)
                    && OwnedBy(tokens, found.value.id.value) == [issued])
    {
      var found := FindByEmail(users, credential.email.GetOr(""));
      if found.None? {
        return Err(NotFound);
      }
      var existing := found.value;
      if !Verify(credential.password.GetOr(""), existing.password) {
        return Err(Unauthorized);
      }
      tokens := DeleteOwnedBy(tokens, existing.id.value);
      var created := CreateToken(existing, randomToken);
      var saved := SaveToken(created.value);
      RotateLeavesOnlyIssued(old(tokens), saved);
      r := Ok(PublicUser(saved.token, existing));
    }

    /** `logout`: every token of the current user is deleted. */
    method Logout(session: Option<User>) returns (r: Result<()>)
      requires Valid() && SessionHasId(session)
      modifies this
      ensures Valid()
      ensures session.None? ==> r == Err(Unauthorized) && State() == old(State())
      ensures session.Some? ==>
                && r == Ok(())
                && State() == old(State()).(tokens := DeleteOwnedBy(old(tokens), session.value.id.value))
                && OwnedBy(tokens, session.value.id.value) == []
    {
      if session.None? {
        return Err(Unauthorized);
      }
      tokens := DeleteOwnedBy(tokens, session.value.id.value);
      DeleteOwnedByLeavesNone(old(tokens), session.value.id.value);
      r := Ok(());
    }

    /** `create`: validate, hash the password, save the user, then issue and
        save a token for it. */
    method Create(name: string, email: string, password: string, randomToken: nat -> string)
      returns (r: Result<PublicUser>)
      requires Valid()
      modifies this
      ensures Valid()
      ensures |name| < MinNameLength ==> r == Err(ValidationFailed) && State() == old(State())
      ensures |name| >= MinNameLength ==>
                var created := User(Some(old(nextUserId)), name, email, Hash(password), false);
                var issued := Token(Some(old(nextTokenId)), randomToken(RandomTokenLength), old(nextUserId));
                && r == Ok(PublicUser(issued.token, created))
                && State() == old(State()).(users := old(users) + [created], tokens := old(tokens) + [issued],
                                            nextUserId := old(nextUserId) + 1, nextTokenId := old(nextTokenId) + 1)
      ensures r.Ok? ==> Verify(password, r.value.user.password)
    {
      var user := NewUser(name, email, password);
      if !IsValid(user) {
        return Err(ValidationFailed);
      }
      user := user.(password := Hash(user.password));
      var created := SaveUser(user);
      var token := CreateToken(created, randomToken);
      var saved := SaveToken(token.value);
      r := Ok(PublicUser(saved.token, created));
    }

    /** `update`: any authenticated user may update any stored user. The
        partial body is overlaid on the stored row, the result validated and
        only then written back. */
    method Update(session: Option<User>, targetId: int, body: UserPartial) returns (r: Result<()>)
      requires Valid()
      modifies this
      ensures Valid()
      ensures session.None? ==> r == Err(Unauthorized) && State() == old(State())
      ensures session.Some? && IndexOfId(old(users), targetId).None? ==>
                r == Err(NotFound) && State() == old(State())
      ensures session.Some? && IndexOfId(old(users), targetId).Some? ==>
                var i := IndexOfId(old(users), targetId).value;
                var merged := Overlay(old(users)[i], body);
                if IsValid(merged) then
                  r == Ok(()) && State() == old(State()).(users := old(users)[i := merged])
                else
                  r == Err(ValidationFailed) && State() == old(State())
    {
      if session.None? {
        return Err(Unauthorized);
      }
      var index := IndexOfId(users, targetId);
      if index.None? {
        return Err(NotFound);
      }
      var i := index.value;
      var merged := Overlay(users[i], body);
      if !IsValid(merged) {
        return Err(ValidationFailed);
      }
      users := users[i := merged];
      assert forall u :: u in users ==> u == merged || u in old(users);
      r := Ok(());
    }

    /** `destroy`: only an administrator may delete, and the check comes
        before the lookup. Only the user row goes: its tokens, its edges and
        its posts stay. */
    method Destroy(session: Option<User>, targetId: int) returns (r: Result<()>)
      requires Valid()
      modifies this
      ensures Valid()
      ensures session.None? ==> r == Err(Unauthorized) && State() == old(State())
      ensures session.Some? && !session.value.admin ==> r == Err(Forbidden) && State() == old(State())
      ensures session.Some? && session.value.admin && IndexOfId(old(users), targetId).None? ==>
                r == Err(NotFound) && State() == old(State())
      ensures session.Some? && session.value.admin && IndexOfId(old(users), targetId).Some? ==>
                var i := IndexOfId(old(users), targetId).value;
                && r == Ok(())
                && State() == old(State()).(users := old(users)[..i] + old(users)[i + 1..])
    {
      if session.None? {
        return Err(Unauthorized);
      }
      if !session.value.admin {
        return Err(Forbidden);
      }
      var index := IndexOfId(users, targetId);
      if index.None? {
        return Err(NotFound);
      }
      var i := index.value;
      RemoveKeepsUniqueIds(users, i);
      users := users[..i] + users[i + 1..];
      r := Ok(());
    }

    /** `follow`: refused for the current user's own id; otherwise the edge
        (current, target) is appended, whether or not it is already stored. */
    method Follow(session: Option<User>, targetId: int) returns (r: Result<()>)
      requires Valid() && SessionHasId(session)
      modifies this
      ensures Valid()
      ensures session.None? ==> r == Err(Unauthorized) && State() == old(State())
      ensures session.Some? && FindById(old(users), targetId).None? ==> r == Err(NotFound) && State() == old(State())
      ensures session.Some? && FindById(old(users), targetId).Some? && session.value.id == Some(targetId) ==>
                r == Err(BadRequest) && State() == old(State())
      ensures session.Some? && FindById(old(users), targetId).Some? && session.value.id != Some(targetId) ==>
                && r == Ok(())
                && State() == old(State()).(edges := old(edges) + [UserConnection(session.value.id.value, targetId)])
                && DidFollow(users, edges, session.value.id.value, targetId)
    {
      if session.None? {
        return Err(Unauthorized);
      }
      var target := FindById(users, targetId);
      if target.None? {
        return Err(NotFound);
      }
      var current := session.value;
      if current.id == target.value.id {
        return Err(BadRequest);
      }
      edges := edges + [Connect(current, target.value)];
      DidFollowIff(users, edges, current.id.value, targetId);
      r := Ok(());
    }

    /** `unfollow`: refused for the current user's own id; otherwise every
        edge (current, target) is removed. */
    method Unfollow(session: Option<User>, targetId: int) returns (r: Result<()>)
      requires Valid() && SessionHasId(session)
      modifies this
      ensures Valid()
      ensures session.None? ==> r == Err(Unauthorized) && State() == old(State())
      ensures session.Some? && FindById(old(users), targetId).None? ==> r == Err(NotFound) && State() == old(State())
      ensures session.Some? && FindById(old(users), targetId).Some? && session.value.id == Some(targetId) ==>
                r == Err(BadRequest) && State() == old(State())
      ensures session.Some? && FindById(old(users), targetId).Some? && session.value.id != Some(targetId) ==>
                && r == Ok(())
                && State() == old(State()).(edges := Unfollowed(old(edges), session.value.id.value, targetId))
                && !DidFollow(users, edges, session.value.id.value, targetId)
    {
      if session.None? {
        return Err(Unauthorized);
      }
      var target := FindById(users, targetId);
      if target.None? {
        return Err(NotFound);
      }
      var current := session.value;
      if current.id == target.value.id {
        return Err(BadRequest);
      }
      edges := Unfollowed(edges, current.id.value, targetId);
      DidFollowIff(users, edges, current.id.value, targetId);
      r := Ok(());
    }

    /** `show`: the target's profile with its posts newest first and the
        sizes of its two follow lists. */
    method Show(session: Option<User>, targetId: int) returns (r: Result<UserProfile>)
      ensures session.None? ==> r == Err(Unauthorized)
      ensures session.Some? ==> (r.Err? <==> FindById(users, targetId).None?)
      ensures r.Err? && session.Some? ==> r.failure == NotFound
      ensures r.Ok? ==>
                && Some(r.value.user) == FindById(users, targetId)
                && NewestFirst(r.value.microposts)
                && multiset(r.value.microposts) == multiset(PostsBy(posts, r.value.user))
                && r.value.followingCount == |Following(users, edges, targetId)| <= OutDegree(edges, targetId)
                && r.value.followerCount == |Followers(users, edges, targetId)| <= InDegree(edges, targetId)
    {
      if session.None? {
        return Err(Unauthorized);
      }
      var target := FindById(users, targetId);
      if target.None? {
        return Err(NotFound);
      }
      var user := target.value;
      SortNewestFirstSorted(PostsBy(posts, user));
      SortNewestFirstPermutes(PostsBy(posts, user));
      FollowingCount(users, edges, targetId);
      FollowersCount(users, edges, targetId);
      r := Ok(UserProfile(user, Timeline(posts, user),
                          |Following(users, edges, targetId)|, |Followers(users, edges, targetId)|));
    }

    /** `following`: the users the target follows. */
    method FollowingOf(session: Option<User>, targetId: int) returns (r: Result<seq<User>>)
      ensures session.None? ==> r == Err(Unauthorized)
      ensures session.Some? && FindById(users, targetId).None? ==> r == Err(NotFound)
      ensures session.Some? && FindById(users, targetId).Some? ==> r == Ok(Following(users, edges, targetId))
      ensures r.Ok? ==> forall u :: u in r.value ==>
                u in users && u.id.Some? && UserConnection(targetId, u.id.value) in edges
    {
      if session.None? {
        return Err(Unauthorized);
      }
      var target := FindById(users, targetId);
      if target.None? {
        return Err(NotFound);
      }
      r := Ok(Following(users, edges, targetId));
    }

    /** `follower`: the users who follow the target. */
    method FollowersOf(session: Option<User>, targetId: int) returns (r: Result<seq<User>>)
      ensures session.None? ==> r == Err(Unauthorized)
      ensures session.Some? && FindById(users, targetId).None? ==> r == Err(NotFound)
      ensures session.Some? && FindById(users, targetId).Some? ==> r == Ok(Followers(users, edges, targetId))
      ensures r.Ok? ==> forall u :: u in r.value ==>
                u in users && u.id.Some? && UserConnection(u.id.value, targetId) in edges
    {
      if session.None? {
        return Err(Unauthorized);
      }
      var target := FindById(users, targetId);
      if target.None? {
        return Err(NotFound);
      }
      r := Ok(Followers(users, edges, targetId));
    }

    /** `didFollow`: counts the current user's following rows whose rightID
        is the target; the answer is whether an edge (current, target) exists. */
    method DidFollowTarget(session: Option<User>, targetId: int) returns (r: Result<UserFollowing>)
      requires SessionHasId(session)
      ensures session.None? ==> r == Err(Unauthorized)
      ensures session.Some? && FindById(users, targetId).None? ==> r == Err(NotFound)
      ensures session.Some? && FindById(users, targetId).Some? ==>
                r == Ok(UserFollowing(UserConnection(session.value.id.value, targetId) in edges))
    {
      if session.None? {
        return Err(Unauthorized);
      }
      var target := FindById(users, targetId);
      if target.None? {
        return Err(NotFound);
      }
      var current := session.value.id.value;
      var count := CountWithId(Following(users, edges, current), targetId);
      DidFollowIff(users, edges, current, targetId);
      r := Ok(UserFollowing(count > 0));
    }

    /** `posts`: the target's posts, newest first. */
    method PostsOf(session: Option<User>, targetId: int) returns (r: Result<seq<Micropost>>)
      ensures session.None? ==> r == Err(Unauthorized)
      ensures session.Some? ==> (r.Err? <==> FindById(users, targetId).None?)
      ensures r.Err? && session.Some? ==> r.failure == NotFound
      ensures r.Ok? ==>
                && NewestFirst(r.value)
                && multiset(r.value) == multiset(PostsBy(posts, FindById(users, targetId).value))
                && forall p :: p in r.value <==> p in posts && p.userId == targetId
    {
      if session.None? {
        return Err(Unauthorized);
      }
      var target := FindById(users, targetId);
      if target.None? {
        return Err(NotFound);
      }
      var timeline := Timeline(posts, target.value);
      SortNewestFirstSorted(PostsBy(posts, target.value));
      SortNewestFirstPermutes(PostsBy(posts, target.value));
      forall p ensures p in timeline <==> p in posts && p.userId == targetId {
        TimelineItems(posts, target.value, p);
      }
      r := Ok(timeline);
    }

    /** `feeds`: the timelines of the users the current user follows, one
        block per following row, appended in that order. */
    method Feeds(session: Option<User>) returns (r: Result<seq<UserFeed>>)
      requires SessionHasId(session)
      ensures session.None? ==> r == Err(Unauthorized)
      ensures session.Some? ==> r == Ok(Feed(users, edges, posts, session.value.id.value))
    {
      if session.None? {
        return Err(Unauthorized);
      }
      var followed := Following(users, edges, session.value.id.value);
      var result: seq<UserFeed> := [];
      var i := 0;
      while i < |followed|
        invariant 0 <= i <= |followed|
        invariant result == FeedBlocks(followed[..i], posts)
      {
        var user := followed[i];
        result := result + Block(user, Timeline(posts, user));
        ghost var done := followed[..i + 1];
        assert done[..|done| - 1] == followed[..i] && done[|done| - 1] == user;
        i := i + 1;
      }
      assert followed[..i] == followed;
      r := Ok(result);
    }
  }
}
