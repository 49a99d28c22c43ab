/** The user and role store that the identity framework keeps, as immutable data.
    Lookups are by exact string equality; name normalisation is not modelled. */
module Identity {
  import opened Http

  /** A claim is a (type, value) pair; the type is an open-ended tag. */
  datatype Claim = Claim(kind: string, value: string)

  /** A user record: its identifier, email, user name, the opaque stored password
      hash, the claims attached directly to it and the names of its roles, in
      store order. */
  datatype User = User(
    id: string,
    email: string,
    userName: string,
    passwordHash: string,
    claims: seq<Claim>,
    roles: seq<string>)

  /** A role: its name and the claims attached to it. */
  datatype Role = Role(name: string, claims: seq<Claim>)

  /** Users and roles as sequences. The store itself promises no listing
      order; the model appends new records at the end. */
  datatype Store = Store(users: seq<User>, roles: seq<Role>)

  /** The columns of a user row as a listing serialises it: no claims and no
      role memberships, which the store keeps in separate tables. */
  datatype UserRow = UserRow(id: string, email: string, userName: string, passwordHash: string)

  /** The columns of a role row as a listing serialises it: no claims. */
  datatype RoleRow = RoleRow(name: string)

  function UserRowOf(u: User): UserRow
  {
    UserRow(u.id, u.email, u.userName, u.passwordHash)
  }

  /** The user rows of `users`, one per user, position by position. */
  function UserRows(users: seq<User>): (r: seq<UserRow>)
    ensures |r| == |users|
    ensures forall i :: 0 <= i < |users| ==> r[i] == UserRowOf(users[i])
  {
    seq(|users|, i requires 0 <= i < |users| => UserRowOf(users[i]))
  }

  /** The role rows of `roles`, one per role, position by position. */
  function RoleRows(roles: seq<Role>): (r: seq<RoleRow>)
    ensures |r| == |roles|
    ensures forall i :: 0 <= i < |roles| ==> r[i] == RoleRow(roles[i].name)
  {
    seq(|roles|, i requires 0 <= i < |roles| => RoleRow(roles[i].name))
  }

  /** Position of the first element whose key is `k`, if any. */
  function FirstWithKey<T>(xs: seq<T>, key: T -> string, k: string): (r: Option<nat>)
    ensures r.Some? ==> r.value < |xs| && key(xs[r.value]) == k
    ensures r.Some? ==> forall j :: 0 <= j < r.value ==> key(xs[j]) != k
    ensures r.None? <==> forall j :: 0 <= j < |xs| ==> key(xs[j]) != k
  {
    if |xs| == 0 then None
    else if key(xs[0]) == k then Some(0)
    else
      match FirstWithKey(xs[1..], key, k)
      case None =>
        assert forall j :: 1 <= j < |xs| ==> xs[j] == xs[1..][j - 1];
        None
      case Some(i) => Some(i + 1)
  }

  /** Position of the first user holding `email`, if any (the user lookup by email). */
  function UserIndex(users: seq<User>, email: string): (r: Option<nat>)
    ensures r.Some? ==> r.value < |users| && users[r.value].email == email
    ensures r.Some? ==> forall j :: 0 <= j < r.value ==> users[j].email != email
    ensures r.None? <==> forall j :: 0 <= j < |users| ==> users[j].email != email
  {
    FirstWithKey(users, (u: User) => u.email, email)
  }

  /** The user holding `email`, if any. */
  function FindUser(users: seq<User>, email: string): (r: Option<User>)
    ensures r.Some? <==> exists j :: 0 <= j < |users| && users[j].email == email
    ensures r.Some? ==> r.value in users && r.value.email == email
  {
    match UserIndex(users, email)
    case None => None
    case Some(i) => Some(users[i])
  }

  /** Position of the first role named `name`, if any. */
  function RoleIndex(roles: seq<Role>, name: string): (r: Option<nat>)
    ensures r.Some? ==> r.value < |roles| && roles[r.value].name == name
    ensures r.Some? ==> forall j :: 0 <= j < r.value ==> roles[j].name != name
    ensures r.None? <==> forall j :: 0 <= j < |roles| ==> roles[j].name != name
  {
    FirstWithKey(roles, (role: Role) => role.name, name)
  }

  /** The role lookup by name; absent when no role carries that name. */
  function FindRole(roles: seq<Role>, name: string): (r: Option<Role>)
    ensures r.Some? <==> exists j :: 0 <= j < |roles| && roles[j].name == name
    ensures r.Some? ==> r.value in roles && r.value.name == name
  {
    match RoleIndex(roles, name)
    case None => None
    case Some(i) => Some(roles[i])
  }

  /** Whether some role carries `name`. */
  predicate RoleExists(roles: seq<Role>, name: string)
  {
    RoleIndex(roles, name).Some?
  }

  /** No two users share an email. */
  predicate UniqueEmails(users: seq<User>)
  {
    forall i, j :: 0 <= i < j < |users| ==> users[i].email != users[j].email
  }

  /** No two roles share a name. */
  predicate UniqueRoleNames(roles: seq<Role>)
  {
    forall i, j :: 0 <= i < j < |roles| ==> roles[i].name != roles[j].name
  }

  /** The invariant the store's uniqueness constraints maintain. */
  predicate WellFormed(s: Store)
  {
    UniqueEmails(s.users) && UniqueRoleNames(s.roles)
  }

  /** When emails are unique, the lookup finds exactly the user holding the email. */
  lemma UniqueUserIndex(users: seq<User>, i: nat)
    requires UniqueEmails(users)
    requires i < |users|
    ensures UserIndex(users, users[i].email) == Some(i)
  {
  }

  /** When role names are unique, the lookup finds exactly the role carrying the name. */
  lemma UniqueRoleIndex(roles: seq<Role>, i: nat)
    requires UniqueRoleNames(roles)
    requires i < |roles|
    ensures RoleIndex(roles, roles[i].name) == Some(i)
    ensures FindRole(roles, roles[i].name) == Some(roles[i])
  {
  }

  /** Number of roles named `name`. */
  function CountRolesNamed(roles: seq<Role>, name: string): nat
  {
    if |roles| == 0 then 0
    else (if roles[0].name == name then 1 else 0) + CountRolesNamed(roles[1..], name)
  }

  /** Under unique names, a name that exists is held by exactly one role. */
  lemma {:induction false} UniqueNameCountsOnce(roles: seq<Role>, name: string)
    requires UniqueRoleNames(roles)
    requires RoleExists(roles, name)
    ensures CountRolesNamed(roles, name) == 1
  {
    if roles[0].name == name {
      NameAbsentCountsZero(roles[1..], name);
    } else {
      assert RoleIndex(roles, name) != None;
      UniqueNameCountsOnce(roles[1..], name);
    }
  }

  /** A name no role carries is counted zero times. */
  lemma {:induction false} NameAbsentCountsZero(roles: seq<Role>, name: string)
    requires forall j :: 0 <= j < |roles| ==> roles[j].name != name
    ensures CountRolesNamed(roles, name) == 0
  {
    if |roles| > 0 {
      NameAbsentCountsZero(roles[1..], name);
    }
  }
}
