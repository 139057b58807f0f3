/** The follow edge of Sources/App/Models/UserConnection.swift (a pivot row
    between two users) and the two sibling relations the controller reads
    through it: `following` (the users a user follows) and `followers`. */
module Connections {
  import opened Outcomes
  import opened Users

  /** A pivot row: `leftID` is the follower, `rightID` the user followed. */
  datatype UserConnection = UserConnection(leftID: int, rightID: int)

  /** `UserConnection.init(left:right:)`. The initialiser force-unwraps both
      ids, so both users must have been saved. Nothing stops `left == right`
      or a pair that is already stored. */
  function Connect(left: User, right: User): (c: UserConnection)
    requires left.id.Some? && right.id.Some?
    ensures c.leftID == left.id.value && c.rightID == right.id.value
    ensures c.leftID == c.rightID <==> left.id == right.id
  {
    UserConnection(left.id.value, right.id.value)
  }

  /** `user.following`: for each pivot row whose leftID is `userId`, in table
      order, the stored user its rightID names. A row whose followee is gone
      drops out of the join. */
  function Following(users: seq<User>, edges: seq<UserConnection>, userId: int): (r: seq<User>)
    ensures forall u :: u in r ==> u in users && u.id.Some? && UserConnection(userId, u.id.value) in edges
    ensures |r| <= |edges|
  {
    if edges == [] then []
    else
      var rest := Following(users, edges[1..], userId);
      if edges[0].leftID == userId && FindById(users, edges[0].rightID).Some? then
        [FindById(users, edges[0].rightID).value] + rest
      else rest
  }

  /** `user.followers`: for each pivot row whose rightID is `userId`, the
      stored user its leftID names. */
  function Followers(users: seq<User>, edges: seq<UserConnection>, userId: int): (r: seq<User>)
    ensures forall u :: u in r ==> u in users && u.id.Some? && UserConnection(u.id.value, userId) in edges
    ensures |r| <= |edges|
  {
    if edges == [] then []
    else
      var rest := Followers(users, edges[1..], userId);
      if edges[0].rightID == userId && FindById(users, edges[0].leftID).Some? then
        [FindById(users, edges[0].leftID).value] + rest
      else rest
  }

  /** Every stored followee of a stored edge shows up in `following`. */
  lemma {:induction false} FollowingIncludes(users: seq<User>, edges: seq<UserConnection>, userId: int, followee: User)
    requires followee.id.Some? && UserConnection(userId, followee.id.value) in edges
    requires FindById(users, followee.id.value) == Some(followee)
    ensures followee in Following(users, edges, userId)
  {
    if edges[0] != UserConnection(userId, followee.id.value) {
      FollowingIncludes(users, edges[1..], userId, followee);
    }
  }

  /** Every stored follower of a stored edge shows up in `followers`. */
  lemma {:induction false} FollowersIncludes(users: seq<User>, edges: seq<UserConnection>, userId: int, follower: User)
    requires follower.id.Some? && UserConnection(follower.id.value, userId) in edges
    requires FindById(users, follower.id.value) == Some(follower)
    ensures follower in Followers(users, edges, userId)
  {
    if edges[0] != UserConnection(follower.id.value, userId) {
      FollowersIncludes(users, edges[1..], userId, follower);
    }
  }

  /** The number of pivot rows whose leftID is `userId`. */
  function OutDegree(edges: seq<UserConnection>, userId: int): (n: nat)
    ensures n <= |edges|
  {
    if edges == [] then 0
    else (if edges[0].leftID == userId then 1 else 0) + OutDegree(edges[1..], userId)
  }

  /** The number of pivot rows whose rightID is `userId`. */
  function InDegree(edges: seq<UserConnection>, userId: int): (n: nat)
    ensures n <= |edges|
  {
    if edges == [] then 0
    else (if edges[0].rightID == userId then 1 else 0) + InDegree(edges[1..], userId)
  }

  /** `following.count()` counts one row per pivot row, except the rows whose
      followee is no longer stored. */
  lemma {:induction false} FollowingCount(users: seq<User>, edges: seq<UserConnection>, userId: int)
    ensures |Following(users, edges, userId)| <= OutDegree(edges, userId)
    ensures (forall e :: e in edges && e.leftID == userId ==> FindById(users, e.rightID).Some?)
            ==> |Following(users, edges, userId)| == OutDegree(edges, userId)
  {
    if edges != [] {
      FollowingCount(users, edges[1..], userId);
    }
  }

  /** `followers.count()`, likewise. */
  lemma {:induction false} FollowersCount(users: seq<User>, edges: seq<UserConnection>, userId: int)
    ensures |Followers(users, edges, userId)| <= InDegree(edges, userId)
    ensures (forall e :: e in edges && e.rightID == userId ==> FindById(users, e.leftID).Some?)
            ==> |Followers(users, edges, userId)| == InDegree(edges, userId)
  {
    if edges != [] {
      FollowersCount(users, edges[1..], userId);
    }
  }
}
