/** The account record of Sources/App/Models/User.swift, its validation rule,
    and the lookups the controller performs on the users table. */
module Users {
  import opened Outcomes

  /** A row of the users table. `id` is nil until the row is saved. `admin`
      is read by the destroy handler although User.swift does not declare it. */
  datatype User = User(id: Option<int>, name: string, email: string, password: string, admin: bool)

  /** `User.init(id: nil, name:, email:, password:)`: the arguments are stored
      unchanged, the id is nil and the account is not an administrator. */
  function NewUser(name: string, email: string, password: string): (u: User)
    ensures u.id == None && !u.admin
    ensures u.name == name && u.email == email && u.password == password
  {
    User(None, name, email, password, false)
  }

  /** `validations.add(\.name, .count(3...))` */
  const MinNameLength: nat := 3

  /** `validate()` succeeds: the only rule is on the name. */
  predicate IsValid(u: User) {
    |u.name| >= MinNameLength
  }

  /** Validation looks at the name alone: id, email, password and admin flag
      may be anything. */
  lemma ValidityDependsOnlyOnName(u: User, v: User)
    requires u.name == v.name
    ensures IsValid(u) == IsValid(v)
  {
  }

  /** The position of the first row whose id is `id`. */
  function IndexOfId(users: seq<User>, id: int): (r: Option<nat>)
    ensures r.Some? ==> r.value < |users| && users[r.value].id == Some(id)
    ensures r.Some? ==> forall j :: 0 <= j < r.value ==> users[j].id != Some(id)
    ensures r.None? <==> forall u :: u in users ==> u.id != Some(id)
  {
    if users == [] then None
    else if users[0].id == Some(id) then Some(0)
    else
      match IndexOfId(users[1..], id)
      case None =>
        assert forall u :: u in users ==> u == users[0] || u in users[1..];
        None
      case Some(k) => Some(k + 1)
  }

  /** The row a route parameter `User.parameter` names, if stored. */
  function FindById(users: seq<User>, id: int): (r: Option<User>)
    ensures r.Some? ==> r.value in users && r.value.id == Some(id)
    ensures r.None? <==> forall u :: u in users ==> u.id != Some(id)
  {
    match IndexOfId(users, id)
    case None => None
    case Some(i) => Some(users[i])
  }

  /** The position of the first row whose email is exactly `email`. */
  function IndexOfEmail(users: seq<User>, email: string): (r: Option<nat>)
    ensures r.Some? ==> r.value < |users| && users[r.value].email == email
    ensures r.Some? ==> forall j :: 0 <= j < r.value ==> users[j].email != email
    ensures r.None? <==> forall u :: u in users ==> u.email != email
  {
    if users == [] then None
    else if users[0].email == email then Some(0)
    else
      match IndexOfEmail(users[1..], email)
      case None =>
        assert forall u :: u in users ==> u == users[0] || u in users[1..];
        None
      case Some(k) => Some(k + 1)
  }

  /** `User.query(on:).filter(\User.email, .equal, email).first()` */
  function FindByEmail(users: seq<User>, email: string): (r: Option<User>)
    ensures r.Some? ==> r.value in users && r.value.email == email
    ensures r.None? <==> forall u :: u in users ==> u.email != email
  {
    match IndexOfEmail(users, email)
    case None => None
    case Some(i) => Some(users[i])
  }

  /** No two rows share an id: the table's primary key. */
  ghost predicate UniqueIds(users: seq<User>) {
    forall i, j :: 0 <= i < j < |users| ==> users[i].id != users[j].id
  }

  /** With unique ids, the lookup by id finds exactly the stored row that
      carries that id. */
  lemma FindByIdExact(users: seq<User>, u: User, id: int)
    requires UniqueIds(users)
    ensures FindById(users, id) == Some(u) <==> u in users && u.id == Some(id)
  {
    if u in users && u.id == Some(id) {
      var k :| 0 <= k < |users| && users[k] == u;
      var i := IndexOfId(users, id).value;
      assert users[i].id == users[k].id;
      assert i == k;
    }
  }

  /** Deleting one row keeps the ids unique and adds no row. */
  lemma RemoveKeepsUniqueIds(users: seq<User>, i: nat)
    requires UniqueIds(users) && i < |users|
    ensures var rest := users[..i] + users[i + 1..];
            && UniqueIds(rest)
            && |rest| == |users| - 1
            && forall u :: u in rest ==> u in users
  {
    var rest := users[..i] + users[i + 1..];
    forall a, b | 0 <= a < b < |rest|
      ensures rest[a].id != rest[b].id
    {
      var a' := if a < i then a else a + 1;
      var b' := if b < i then b else b + 1;
      assert rest[a] == users[a'] && rest[b] == users[b'];
    }
    forall u | u in rest
      ensures u in users
    {
      var k :| 0 <= k < |rest| && rest[k] == u;
      assert rest[k] == users[if k < i then k else k + 1];
    }
  }
}
