# Steam user core in Dafny

A model of the user side of the Steam social-network backend (a Vapor 3
application): accounts, bearer tokens, the follow graph between users and the
feed assembled from the posts of followed users, plus the middleware that lets
an HTML form tunnel PATCH and DELETE through POST.

- `outcomes.dfy` — `Option`, `Result` and the failures a handler raises
  (not found, unauthorized, forbidden, bad request, validation failed, missing
  id).
- `crypto.dfy` — a stand-in for BCrypt: a fixed digest of the password, and
  the verification that compares against it.
- `user.dfy` — the user record, its validation (a name of at least three
  characters) and the lookups by id and by email.
- `token.dfy` — the token record, `createToken` (the string the random helper
  returns for length 48, owned by the user's id), lookup of a bearer string and deletion of a user's tokens.
- `user_connection.dfy` — the follow pivot (leftID follows rightID) and the
  `following` / `followers` sibling queries.
- `micropost.dfy` — the posts of a user and their ordering by `createAt`,
  newest first (the relation and the sort the controller relies on).
- `social.dfy` — the pure meaning of the controller's compound steps: token
  rotation at login, the partial-update overlay, unfollow, `didFollow`, and
  the feed as per-followee blocks.
- `user_controller.dfy` — class `Store` holds the tables (users, tokens,
  edges, posts) and their id counters; each route handler of
  `UserController` is a method that updates the store in place, with its
  whole new state stated against the functions above.
- `strings.dfy` and `middleware.dfy` — the string splitting the middleware
  uses, and `MethodInterceptor.respond` on a mutable request.

The authenticated user that the token middleware attaches to a request is a
`session` argument of the handler; a `User.parameter` route segment is a
`targetId` that the handler looks up (`NotFound` when no row has it). The
random token generator is a parameter `randomToken: nat -> string`, called
with length 48.

Where a reader might expect otherwise, the model follows the code:
the feed is the followees' timelines appended one block after another (it is
not one globally ordered list); follow appends the pivot row even when it
already exists, and unfollow removes every copy; destroy removes only the user
row and leaves that user's tokens, pivot rows and posts; login answers
`NotFound` for an unknown email and `Unauthorized` for a wrong password;
update lets any authenticated user change any user; `index` and `create` need
no session.

## Model

| member | source | states |
|---|---|---|
| Crypto.VerifyHash | Sources/App/Controllers/UserController.swift:86 | a password verifies against its own digest |
| Users.NewUser | Sources/App/Models/User.swift:11-16 | the initialiser copies name, email and password, leaves the id unset and the user not an administrator |
| Users.ValidityDependsOnlyOnName | Sources/App/Models/User.swift:27-33 | validity looks at the name only: two users with the same name are both valid or both invalid |
| Users.IndexOfId | Sources/App/Controllers/UserController.swift:62 | the position of the first row with the id, and none exactly when no row has it |
| Users.FindById | Sources/App/Controllers/UserController.swift:37 | the found user is stored and carries the id; none exactly when no stored user has it |
| Users.IndexOfEmail | Sources/App/Controllers/UserController.swift:81 | the position of the first row whose email equals the given one exactly; none exactly when no row has it |
| Users.FindByEmail | Sources/App/Controllers/UserController.swift:81 | the found user is stored and has exactly that email; none exactly when no stored user has it |
| Users.FindByIdExact | Sources/App/Controllers/UserController.swift:37 | with unique ids, the lookup by id returns a user exactly when that user is stored with that id |
| Users.RemoveKeepsUniqueIds | Sources/App/Controllers/UserController.swift:74 | deleting one row keeps ids unique, shortens the table by one and adds no user |
| Tokens.NewToken | Sources/App/Models/Token.swift:18-21 | the initialiser stores the token string and the owner id, leaving the id unset |
| Tokens.CreateToken | Sources/App/Models/Token.swift:23-27 | the token string is the one the random helper returns for length 48, the owner is the user's id, and it fails exactly when the user has no id |
| Tokens.FindByBearer | Sources/App/Models/Token.swift:36-38 | the token found is stored and its string equals the bearer; none exactly when no stored token carries it |
| Tokens.Authenticate | Sources/App/Models/Token.swift:40-44 | the authenticated user is stored and owns a stored token with the bearer string; an unknown bearer authenticates nobody |
| Tokens.FindByBearerUnique | Sources/App/Models/Token.swift:36-38 | with unique token strings, a stored token's string finds exactly that token |
| Tokens.AuthenticateStored | Sources/App/Models/Token.swift:36-44 | with unique token strings, every stored token authenticates as the stored user its userId names, and as nobody when that user is gone |
| Tokens.OwnedBy | Sources/App/Controllers/UserController.swift:89 | exactly the stored tokens whose owner is the user |
| Tokens.DeleteOwnedBy | Sources/App/Controllers/UserController.swift:104-107 | keeps exactly the tokens the user does not own |
| Tokens.DeleteOwnedByLeavesNone | Sources/App/Controllers/UserController.swift:104-107 | after the delete the user owns no token |
| Tokens.DeleteOwnedByKeepsOthers | Sources/App/Controllers/UserController.swift:104-107 | the delete leaves every other user's tokens, in order |
| Tokens.DeleteOwnedByIdempotent | Sources/App/Controllers/UserController.swift:104-107 | deleting a user's tokens twice equals deleting them once |
| Tokens.OwnedByAppend | Sources/App/Controllers/UserController.swift:92 | saving a token adds it to its owner's tokens and to no one else's |
| Tokens.FindByBearerAppend | Sources/App/Controllers/UserController.swift:92 | a saved token whose string no earlier row carries is the one a bearer lookup finds |
| Connections.Connect | Sources/App/Models/UserConnection.swift:22-25 | the edge goes from the left user's id to the right user's id; it is a self-edge exactly when the ids are equal |
| Connections.Following | Sources/App/Controllers/UserController.swift:133-138 | every user returned is stored and followed by the user through a stored edge |
| Connections.Followers | Sources/App/Controllers/UserController.swift:140-145 | every user returned is stored and follows the user through a stored edge |
| Connections.FollowingIncludes | Sources/App/Controllers/UserController.swift:133-138 | a stored user reached by a stored edge from the user is in its following list |
| Connections.FollowersIncludes | Sources/App/Controllers/UserController.swift:140-145 | a stored user with a stored edge to the user is in its followers list |
| Connections.FollowingCount | Sources/App/Controllers/UserController.swift:39 | the following count is at most the number of outgoing edges, and equal when every edge's target is stored |
| Connections.FollowersCount | Sources/App/Controllers/UserController.swift:40 | the follower count is at most the number of incoming edges, and equal when every edge's source is stored |
| Microposts.PostsBy | Sources/App/Controllers/UserController.swift:159 | exactly the posts whose owner id is the user's id |
| Microposts.InsertByDatePermutes | Sources/App/Controllers/UserController.swift:159 | inserting a post adds exactly that post and loses none |
| Microposts.InsertByDateSorted | Sources/App/Controllers/UserController.swift:159 | inserting into a newest-first list keeps it newest first |
| Microposts.SortNewestFirstPermutes | Sources/App/Controllers/UserController.swift:159 | the sort by `createAt` descending is a permutation of its input |
| Microposts.SortNewestFirstSorted | Sources/App/Controllers/UserController.swift:159 | the sort by `createAt` descending yields a newest-first list |
| Social.RotateLeavesOnlyIssued | Sources/App/Controllers/UserController.swift:87-95 | after login's rotation the user owns exactly the new token |
| Social.RotateKeepsOthers | Sources/App/Controllers/UserController.swift:87-95 | login leaves other users' tokens untouched |
| Social.RotateAuthenticates | Sources/App/Controllers/UserController.swift:87-95 | a fresh token string issued at login authenticates as the logged-in user |
| Social.RevokedCannotAuthenticate | Sources/App/Controllers/UserController.swift:102-109 | after logout no bearer string authenticates as that user |
| Social.RemovedUserCannotAuthenticate | Sources/App/Controllers/UserController.swift:71-78 | after destroy the leftover tokens of the removed user authenticate nobody with its id |
| Social.Overlay | Sources/App/Controllers/UserController.swift:63-65 | a present field overwrites, an absent field keeps the stored value; a new password is stored hashed; id and admin flag are kept |
| Social.OverlayIdempotent | Sources/App/Controllers/UserController.swift:63-65 | applying the same partial body twice leaves the same id, admin flag, name and email as applying it once, the body's password still verifies, and without a password the row is the same |
| Social.Unfollowed | Sources/App/Controllers/UserController.swift:122-131 | keeps exactly the edges other than (follower, followee), each with as many copies as before |
| Social.UnfollowedKeepsOthersFollowing | Sources/App/Controllers/UserController.swift:122-138 | unfollow leaves every other user's following list as it was, in order and with repeated rows |
| Social.UnfollowedKeepsOthersFollowers | Sources/App/Controllers/UserController.swift:122-131 | unfollow leaves the follower list of everybody but the followee as it was, in order and with repeated rows |
| Social.UnfollowUndoesFollow | Sources/App/Controllers/UserController.swift:111-131 | unfollow after follow leaves the same edges as unfollow alone |
| Social.CountWithId | Sources/App/Controllers/UserController.swift:150-151 | the count is positive exactly when some listed user carries the id |
| Social.DidFollowIff | Sources/App/Controllers/UserController.swift:147-154 | for a stored followee, `didFollow` is true exactly when the edge (follower, followee) is stored |
| Social.FeedLength | Sources/App/Controllers/UserController.swift:163-178 | the feed has one item per post of each followed entry |
| Social.FeedBlocksPrefix | Sources/App/Controllers/UserController.swift:174-176 | the feed of the first followees is a prefix of the whole feed |
| Social.FeedBlockAt | Sources/App/Controllers/UserController.swift:163-178 | the k-th followee's posts sit as one contiguous block, newest first, after the blocks of the earlier followees |
| Social.BlockItems | Sources/App/Controllers/UserController.swift:169-171 | a block holds exactly the pairs of its user with each of its posts |
| Social.TimelineItems | Sources/App/Controllers/UserController.swift:156-161 | the timeline holds exactly the user's posts |
| Social.FeedItems | Sources/App/Controllers/UserController.swift:163-178 | a feed item is present exactly when its user is followed and its post is that user's |
| Social.FeedBlocksSnoc | Sources/App/Controllers/UserController.swift:174-176 | following one more user appends exactly that user's block to the feed |
| Social.FeedOfTwo | Sources/App/Controllers/UserController.swift:174-176 | the feed of two followees is the first one's block followed by the second's |
| Social.FeedIsNotMerged | Sources/App/Controllers/UserController.swift:163-178 | when the first followee has an older post than the second, the feed is not newest first overall |
| UserController.Store.constructor | Sources/App/Controllers/UserController.swift:5-29 | an empty, valid store around a posts table |
| UserController.Store.SaveUser | Sources/App/Controllers/UserController.swift:52 | `create(on:)` gives the row the next id and appends it; nothing else changes |
| UserController.Store.SaveToken | Sources/App/Controllers/UserController.swift:54 | `save(on:)` gives the token the next id and appends it; nothing else changes |
| UserController.Store.Login | Sources/App/Controllers/UserController.swift:80-100 | unknown email gives not found, wrong password unauthorized, both with no change; otherwise the user's tokens are replaced by one fresh token that is returned with the user |
| UserController.Store.Logout | Sources/App/Controllers/UserController.swift:102-109 | without a session unauthorized; otherwise exactly the user's tokens are deleted |
| UserController.Store.Create | Sources/App/Controllers/UserController.swift:49-58 | a name under three characters fails validation with no change; otherwise the user is saved with the next id and a hashed password, and a token for it is saved and returned |
| UserController.Store.Update | Sources/App/Controllers/UserController.swift:60-69 | unauthorized, not found, or validation failure change nothing; otherwise the stored row becomes the overlay of the body |
| UserController.Store.Destroy | Sources/App/Controllers/UserController.swift:71-78 | a non-administrator is forbidden with no change even for a missing target; an administrator removes exactly the target row |
| UserController.Store.Follow | Sources/App/Controllers/UserController.swift:111-120 | following oneself is a bad request with no change; otherwise the edge is appended and `didFollow` then holds |
| UserController.Store.Unfollow | Sources/App/Controllers/UserController.swift:122-131 | unfollowing oneself is a bad request with no change; otherwise every such edge is removed and `didFollow` then fails |
| UserController.Store.Show | Sources/App/Controllers/UserController.swift:35-47 | the target's profile: its posts newest first, and its following and follower counts bounded by its edge degrees |
| UserController.Store.FollowingOf | Sources/App/Controllers/UserController.swift:133-138 | the target's following list, each member joined through a stored edge |
| UserController.Store.FollowersOf | Sources/App/Controllers/UserController.swift:140-145 | the target's follower list, each member joined through a stored edge |
| UserController.Store.DidFollowTarget | Sources/App/Controllers/UserController.swift:147-154 | the answer is whether the edge (current user, target) is stored |
| UserController.Store.PostsOf | Sources/App/Controllers/UserController.swift:156-161 | a newest-first permutation of the target's posts: each of its rows exactly once, and no other post |
| UserController.Store.Feeds | Sources/App/Controllers/UserController.swift:163-178 | the loop builds the feed of the current user's following list, block by block |
| Strings.IndexOf | Sources/App/middleware.swift:17-18 | the position of the first separator, or the length when there is none |
| Strings.Split | Sources/App/middleware.swift:17-18 | at least one piece, no piece holds the separator, the first piece is everything before the first separator |
| Strings.JoinSplit | Sources/App/middleware.swift:17-18 | joining the pieces with the separator gives the input back |
| Strings.SplitJoin | Sources/App/middleware.swift:17-18 | pieces free of the separator are recovered by splitting their join |
| MethodOverride.FirstContaining | Sources/App/middleware.swift:17 | the first field containing the key: the result contains it and no earlier field does; none exactly when no field contains it |
| MethodOverride.Requested | Sources/App/middleware.swift:19-26 | PATCH exactly for "patch", DELETE exactly for "delete", the method stays POST otherwise |
| MethodOverride.Intercept | Sources/App/middleware.swift:13-32 | only a POST whose body starts with `data_method` is changed, only to PATCH or DELETE, and only such a request can trap |
| MethodOverride.OverrideFieldIsFirst | Sources/App/middleware.swift:16-17 | when the body starts with `data_method`, the field picked is the body's first `&`-separated field |
| MethodOverride.InterceptReadsFirstField | Sources/App/middleware.swift:16-26 | the request traps exactly when that first field holds no `=`; otherwise the new method is read from the text between its first and second `=` |
| MethodOverride.Respond | Sources/App/middleware.swift:13-32 | the request's method is updated in place as the interception says, and it is forwarded exactly when it does not trap |

## Left out

- Futures, event loops and concurrency: each handler runs as one sequential step on the store.
- Crypto.Hash: BCrypt draws a fresh salt on every call and reads at most 72 bytes of the password; the stand-in is a fixed, unsalted function, so the model states no property of the digest beyond a password verifying against its own digest (two passwords sharing a digest, or a repeated update storing the same digest, are not claimed).
- `Helper.randomToken` is a parameter of the model; it is not among the modelled files.
- SQL and the ORM: tables are sequences, lookups return the first matching row in storage order, `first()` on the email filter included; row order of the sibling queries follows the pivot rows. SQLite's ids are counters that start at 1 and never reuse a value.
- `create` decodes the whole user record from the request; the model takes name, email and password, so a client-supplied id is not modelled and the user is never an administrator.
- `User.swift` declares no `admin` field although `destroy` reads one; the model's user record carries it.
- `IsValid` counts Swift characters as Dafny `char`s; grapheme clusters are not modelled.
- `Micropost.createAt` is an integer timestamp; a post without a date and the order among posts with equal dates (left to the database) are not modelled; the sort is stable.
- `index` returns every stored user and needs no session; it is not modelled because it only returns the table.
- `User.follow` / `User.unfollow`, the `following` / `followers` / `microposts` relations and `User.PublicUser` are declared outside the modelled source files, so the model fixes their meaning: follow appends the pivot row (current, target) and unfollow removes every copy of it; `following` / `followers` (`Connections.Following` / `Connections.Followers`) join the pivot rows on leftID / rightID with the users table, in pivot-row order, dropping rows whose other user is gone; `microposts` (`Microposts.PostsBy`) is the posts whose userId is the user's id; `PublicUser` (`Social.PublicUser`) pairs the token string with the user.
- HTTP status codes and response encoding: failures are the `Failure` values; `print` logging in the middleware is dropped.
- Routing (`boot`), `StaticPage`, `MicropostController` and the web views are not part of this model.
- MethodOverride.Intercept: the crash on `components(separatedBy: "=")[1]` when the field has no `=` is the `Trap` outcome; the middleware's reading of the request body as text (`description`) is modelled as a plain string.
