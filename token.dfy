/** The bearer token record of Sources/App/Models/Token.swift, how a token is
    created for a user, how a presented bearer string authenticates, and the
    per-owner queries the controller runs on the tokens table. */
module Tokens {
  import opened Outcomes
  import opened Users

  /** A row of the tokens table: the opaque string and the owning user's id.
      `id` is nil until the row is saved. */
  datatype Token = Token(id: Option<int>, token: string, userId: int)

  /** `Token.init(token:userId:)` */
  function NewToken(token: string, userId: int): (t: Token)
    ensures t.id == None && t.token == token && t.userId == userId
  {
    Token(None, token, userId)
  }

  /** The length `createToken` asks the random-string helper for. */
  const RandomTokenLength: nat := 48

  /** `Token.createToken(forUser:)`. The random-string helper is a parameter:
      `randomToken(n)` is what `Helper.randomToken(withLength: n)` returns.
      `requireID()` throws for a user that was never saved. */
  function CreateToken(user: User, randomToken: nat -> string): (r: Result<Token>)
    ensures r.Ok? <==> user.id.Some?
    ensures r.Err? ==> r.failure == MissingId
    ensures r.Ok? ==> r.value.id == None && r.value.userId == user.id.value
    ensures r.Ok? ==> r.value.token == randomToken(RandomTokenLength)
  {
    var tokenString := randomToken(RandomTokenLength);
    if user.id.None? then Err(MissingId) else Ok(NewToken(tokenString, user.id.value))
  }

  /** The first row whose `token` field (the `tokenKey`) equals the presented
      bearer string exactly. */
  function FindByBearer(tokens: seq<Token>, bearer: string): (r: Option<Token>)
    ensures r.Some? ==> r.value in tokens && r.value.token == bearer
    ensures r.None? <==> forall t :: t in tokens ==> t.token != bearer
  {
    if tokens == [] then None
    else if tokens[0].token == bearer then Some(tokens[0])
    else
      var rest := FindByBearer(tokens[1..], bearer);
      assert forall t :: t in tokens ==> t == tokens[0] || t in tokens[1..];
      rest
  }

  /** Bearer authentication: the matching token resolves, through `userIDKey`,
      to the stored user its `userId` names. A token whose user is gone
      authenticates nobody. */
  function Authenticate(tokens: seq<Token>, users: seq<User>, bearer: string): (r: Option<User>)
    ensures r.Some? ==> r.value in users
    ensures r.Some? ==> exists t :: t in tokens && t.token == bearer && r.value.id == Some(t.userId)
    ensures (forall t :: t in tokens ==> t.token != bearer) ==> r.None?
  {
    match FindByBearer(tokens, bearer)
    case None => None
    case Some(t) => FindById(users, t.userId)
  }

  /** No two stored tokens carry the same string. */
  ghost predicate UniqueStrings(tokens: seq<Token>) {
    forall i, j :: 0 <= i < j < |tokens| ==> tokens[i].token != tokens[j].token
  }

  /** With unique token strings, a stored token's string finds that token. */
  lemma {:induction false} FindByBearerUnique(tokens: seq<Token>, t: Token)
    requires UniqueStrings(tokens) && t in tokens
    ensures FindByBearer(tokens, t.token) == Some(t)
  {
    if tokens[0] != t {
      assert t in tokens[1..];
      assert tokens[0].token != t.token by {
        var k :| 0 < k < |tokens| && tokens[k] == t;
      }
      FindByBearerUnique(tokens[1..], t);
    }
  }

  /** With unique token strings, every stored token authenticates as the
      stored user its userId names, and as nobody when that user is gone. */
  lemma AuthenticateStored(tokens: seq<Token>, users: seq<User>, t: Token)
    requires UniqueStrings(tokens) && t in tokens
    ensures Authenticate(tokens, users, t.token) == FindById(users, t.userId)
  {
    FindByBearerUnique(tokens, t);
  }

  /** Tokens of `userId`: `Token.query(on:).filter(\Token.userId, .equal, userId)`. */
  function OwnedBy(tokens: seq<Token>, userId: int): (r: seq<Token>)
    ensures forall t :: t in r <==> t in tokens && t.userId == userId
    ensures |r| <= |tokens|
  {
    if tokens == [] then []
    else
      var rest := OwnedBy(tokens[1..], userId);
      assert forall t :: t in tokens ==> t == tokens[0] || t in tokens[1..];
      if tokens[0].userId == userId then [tokens[0]] + rest else rest
  }

  /** What `.delete()` on that query leaves of the table. */
  function DeleteOwnedBy(tokens: seq<Token>, userId: int): (r: seq<Token>)
    ensures forall t :: t in r <==> t in tokens && t.userId != userId
    ensures |r| <= |tokens|
  {
    if tokens == [] then []
    else
      var rest := DeleteOwnedBy(tokens[1..], userId);
      assert forall t :: t in tokens ==> t == tokens[0] || t in tokens[1..];
      if tokens[0].userId != userId then [tokens[0]] + rest else rest
  }

  /** Deleting one user's tokens leaves nothing of theirs. */
  lemma DeleteOwnedByLeavesNone(tokens: seq<Token>, userId: int)
    ensures OwnedBy(DeleteOwnedBy(tokens, userId), userId) == []
  {
    var r := OwnedBy(DeleteOwnedBy(tokens, userId), userId);
    assert forall t :: t !in r;
  }

  /** Deleting one user's tokens leaves every other user's tokens, in order. */
  lemma {:induction false} DeleteOwnedByKeepsOthers(tokens: seq<Token>, userId: int, other: int)
    requires other != userId
    ensures OwnedBy(DeleteOwnedBy(tokens, userId), other) == OwnedBy(tokens, other)
  {
    if tokens != [] {
      DeleteOwnedByKeepsOthers(tokens[1..], userId, other);
    }
  }

  /** Deleting twice deletes no more than deleting once. */
  lemma {:induction false} DeleteOwnedByIdempotent(tokens: seq<Token>, userId: int)
    ensures DeleteOwnedBy(DeleteOwnedBy(tokens, userId), userId) == DeleteOwnedBy(tokens, userId)
  {
    if tokens != [] {
      DeleteOwnedByIdempotent(tokens[1..], userId);
    }
  }

  /** Appending a row adds it to its owner's tokens and to nobody else's. */
  lemma {:induction false} OwnedByAppend(tokens: seq<Token>, t: Token, userId: int)
    ensures OwnedBy(tokens + [t], userId) == OwnedBy(tokens, userId) + (if t.userId == userId then [t] else [])
  {
    if tokens != [] {
      assert (tokens + [t])[1..] == tokens[1..] + [t];
      OwnedByAppend(tokens[1..], t, userId);
    }
  }

  /** A bearer string no earlier row carries finds the appended row. */
  lemma {:induction false} FindByBearerAppend(tokens: seq<Token>, t: Token)
    requires forall x :: x in tokens ==> x.token != t.token
    ensures FindByBearer(tokens + [t], t.token) == Some(t)
  {
    if tokens != [] {
      assert (tokens + [t])[1..] == tokens[1..] + [t];
      FindByBearerAppend(tokens[1..], t);
    }
  }
}
