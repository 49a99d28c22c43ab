/** The administrative role endpoints (Controllers/SetupController.cs) as state
    transitions over the user and role store. Each store-side outcome the
    identity framework decides is an input. */
module Setup {
  import opened Http
  import opened Identity

  const RoleAlreadyExists := "Role already exist"
  const UserMissing := "User does not exist"
  const AddedToRole := "Success, user has been added to the role"
  const NotAddedToRole := "The user was not able to added to the role"

  function RoleCreated(name: string): string
  {
    "The Role " + name + " has been added successfully"
  }

  function RoleNotCreated(name: string): string
  {
    "The Role " + name + " has not been added successfully"
  }

  /** The message both membership endpoints give for a role that does not exist. */
  function RoleMissing(roleName: string): string
  {
    "The Role " + roleName + " has not been added successfully exist"
  }

  function RemovedFromRole(email: string, roleName: string): string
  {
    "User " + email + " has been removed from role " + roleName
  }

  function NotRemovedFromRole(email: string, roleName: string): string
  {
    "Unable to remove User " + email + " from role " + roleName
  }

  /** `after` is `before` with only the role list of user `i` replaced by `roles`. */
  predicate OnlyRolesOfChanged(before: seq<User>, after: seq<User>, i: nat, roles: seq<string>)
  {
    && |after| == |before|
    && i < |before|
    && after[i] == before[i].(roles := roles)
    && forall j :: 0 <= j < |before| && j != i ==> after[j] == before[j]
  }

  /** `names` with every occurrence of `name` removed; WithoutAppend shows the
      remaining names keep their relative order. */
  function Without(names: seq<string>, name: string): (r: seq<string>)
    ensures name !in r
    ensures forall n :: n in r <==> n in names && n != name
  {
    if |names| == 0 then []
    else (if names[0] == name then [] else [names[0]]) + Without(names[1..], name)
  }

  /** Removing a name that is absent changes nothing. */
  lemma {:induction false} WithoutAbsent(names: seq<string>, name: string)
    requires name !in names
    ensures Without(names, name) == names
  {
    if |names| > 0 {
      assert names == [names[0]] + names[1..];
      WithoutAbsent(names[1..], name);
    }
  }

  /** Removal distributes over concatenation. */
  lemma {:induction false} WithoutAppend(a: seq<string>, b: seq<string>, name: string)
    ensures Without(a + b, name) == Without(a, name) + Without(b, name)
  {
    if |a| == 0 {
      assert a + b == b;
    } else {
      assert (a + b)[0] == a[0];
      assert (a + b)[1..] == a[1..] + b;
      WithoutAppend(a[1..], b, name);
    }
  }

  /** Replace the role list of user `i`. */
  function SetRoles(users: seq<User>, i: nat, roles: seq<string>): (r: seq<User>)
    requires i < |users|
    ensures OnlyRolesOfChanged(users, r, i, roles)
  {
    users[i := users[i].(roles := roles)]
  }

  /** Lists every stored role as its row (the name, without claims); nothing changes. */
  function GetAllRoles(s: Store): (r: Step<Response<seq<RoleRow>>, Store>)
    ensures r.state == s
    ensures r.response.Ok?
    ensures |r.response.body| == |s.roles|
    ensures forall role :: role in s.roles ==> RoleRow(role.name) in r.response.body
    ensures forall row :: row in r.response.body ==> exists j :: 0 <= j < |s.roles| && s.roles[j].name == row.name
  {
    Step(Ok(RoleRows(s.roles)), s)
  }

  /** Lists every stored user as its row (identifier, email, user name and
      password hash, without claims or roles); nothing changes. */
  function GetAllUsers(s: Store): (r: Step<Response<seq<UserRow>>, Store>)
    ensures r.state == s
    ensures r.response.Ok?
    ensures |r.response.body| == |s.users|
    ensures forall u :: u in s.users ==> UserRowOf(u) in r.response.body
    ensures forall row :: row in r.response.body ==>
              exists j :: 0 <= j < |s.users| && UserRowOf(s.users[j]) == row
  {
    Step(Ok(UserRows(s.users)), s)
  }

  /** CreateRole: an existing name is refused and nothing changes; otherwise the
      outcome of the store's creation decides between a new role with no claims
      and an unchanged store. */
  function CreateRole(s: Store, name: string, created: bool): (r: Step<Response<string>, Store>)
    ensures RoleExists(s.roles, name) ==> r == Step(BadRequest(RoleAlreadyExists), s)
    ensures !RoleExists(s.roles, name) && !created ==> r == Step(BadRequest(RoleNotCreated(name)), s)
    ensures !RoleExists(s.roles, name) && created ==>
              && r.response == Ok(RoleCreated(name))
              && r.state.users == s.users
              && r.state.roles == s.roles + [Role(name, [])]
    ensures RoleExists(r.state.roles, name) <==> RoleExists(s.roles, name) || created
  {
    if RoleExists(s.roles, name) then Step(BadRequest(RoleAlreadyExists), s)
    else if created then
      var roles' := s.roles + [Role(name, [])];
      assert roles'[|s.roles|].name == name;
      Step(Ok(RoleCreated(name)), s.(roles := roles'))
    else Step(BadRequest(RoleNotCreated(name)), s)
  }

  /** AddUserToRole: the user is checked before the role; either missing leaves
      the store unchanged; on the store's success the role name joins that
      user's role list and no other user or role changes. */
  function AddUserToRole(s: Store, email: string, roleName: string, added: bool): (r: Step<Response<string>, Store>)
    ensures FindUser(s.users, email).None? ==> r == Step(BadRequest(UserMissing), s)
    ensures FindUser(s.users, email).Some? && !RoleExists(s.roles, roleName) ==>
              r == Step(BadRequest(RoleMissing(roleName)), s)
    ensures FindUser(s.users, email).Some? && RoleExists(s.roles, roleName) && !added ==>
              r == Step(BadRequest(NotAddedToRole), s)
    ensures FindUser(s.users, email).Some? && RoleExists(s.roles, roleName) && added ==>
              var i := UserIndex(s.users, email).value;
              && r.response == Ok(AddedToRole)
              && r.state.roles == s.roles
              && OnlyRolesOfChanged(s.users, r.state.users, i, s.users[i].roles + [roleName])
  {
    match UserIndex(s.users, email)
    case None => Step(BadRequest(UserMissing), s)
    case Some(i) =>
      if !RoleExists(s.roles, roleName) then Step(BadRequest(RoleMissing(roleName)), s)
      else if !added then Step(BadRequest(NotAddedToRole), s)
      else Step(Ok(AddedToRole), s.(users := SetRoles(s.users, i, s.users[i].roles + [roleName])))
  }

  /** GetUserRoles: an unknown email is refused, otherwise exactly that user's
      role list is returned; nothing changes either way. */
  function GetUserRoles(s: Store, email: string): (r: Step<Response<seq<string>>, Store>)
    ensures r.state == s
    ensures FindUser(s.users, email).None? ==> r.response == BadRequest(UserMissing)
    ensures FindUser(s.users, email).Some? ==> r.response == Ok(FindUser(s.users, email).value.roles)
  {
    match FindUser(s.users, email)
    case None => Step(BadRequest(UserMissing), s)
    case Some(user) => Step(Ok(user.roles), s)
  }

  /** RemoveUserFromRole: the same guards as AddUserToRole in the same order; on
      the store's success the role name leaves that user's role list and no
      other user or role changes. */
  function RemoveUserFromRole(s: Store, email: string, roleName: string, removed: bool): (r: Step<Response<string>, Store>)
    ensures FindUser(s.users, email).None? ==> r == Step(BadRequest(UserMissing), s)
    ensures FindUser(s.users, email).Some? && !RoleExists(s.roles, roleName) ==>
              r == Step(BadRequest(RoleMissing(roleName)), s)
    ensures FindUser(s.users, email).Some? && RoleExists(s.roles, roleName) && !removed ==>
              r == Step(BadRequest(NotRemovedFromRole(email, roleName)), s)
    ensures FindUser(s.users, email).Some? && RoleExists(s.roles, roleName) && removed ==>
              var i := UserIndex(s.users, email).value;
              && r.response == Ok(RemovedFromRole(email, roleName))
              && r.state.roles == s.roles
              && OnlyRolesOfChanged(s.users, r.state.users, i, Without(s.users[i].roles, roleName))
              && roleName !in r.state.users[i].roles
  {
    match UserIndex(s.users, email)
    case None => Step(BadRequest(UserMissing), s)
    case Some(i) =>
      if !RoleExists(s.roles, roleName) then Step(BadRequest(RoleMissing(roleName)), s)
      else if !removed then Step(BadRequest(NotRemovedFromRole(email, roleName)), s)
      else Step(Ok(RemovedFromRole(email, roleName)), s.(users := SetRoles(s.users, i, Without(s.users[i].roles, roleName))))
  }

  /** The user check takes precedence over the role check: for an unknown email
      both membership endpoints answer "User does not exist" whatever the role
      and whatever the store would have decided. */
  lemma UserCheckedFirst(s: Store, email: string, r1: string, r2: string, o1: bool, o2: bool)
    requires FindUser(s.users, email).None?
    ensures AddUserToRole(s, email, r1, o1) == RemoveUserFromRole(s, email, r2, o2)
    ensures AddUserToRole(s, email, r1, o1).response == BadRequest(UserMissing)
  {
  }

  /** CreateRole never duplicates a role: under unique names, the name is held
      by exactly one role afterwards when creation succeeds or the name existed. */
  lemma CreateRoleKeepsNamesUnique(s: Store, name: string, created: bool)
    requires UniqueRoleNames(s.roles)
    ensures UniqueRoleNames(CreateRole(s, name, created).state.roles)
    ensures RoleExists(s.roles, name) || created ==>
              CountRolesNamed(CreateRole(s, name, created).state.roles, name) == 1
  {
    var roles' := CreateRole(s, name, created).state.roles;
    if !RoleExists(s.roles, name) && created {
      forall i, j | 0 <= i < j < |roles'|
        ensures roles'[i].name != roles'[j].name
      {
        if j == |s.roles| {
          assert roles'[i] == s.roles[i];
        }
      }
    }
    if RoleExists(s.roles, name) || created {
      assert RoleExists(roles', name);
      UniqueNameCountsOnce(roles', name);
    }
  }

  /** Membership changes touch no email, so the store stays well formed. */
  lemma MembershipKeepsWellFormed(s: Store, email: string, roleName: string, outcome: bool)
    requires WellFormed(s)
    ensures WellFormed(AddUserToRole(s, email, roleName, outcome).state)
    ensures WellFormed(RemoveUserFromRole(s, email, roleName, outcome).state)
  {
  }

  /** After a successful AddUserToRole, GetUserRoles reports the user's old
      roles and the new one, as a multiset: the store does not promise where in
      the listing the new membership appears. */
  lemma AddThenGetRoles(s: Store, email: string, roleName: string)
    requires AddUserToRole(s, email, roleName, true).response.Ok?
    ensures var s1 := AddUserToRole(s, email, roleName, true).state;
            var r := GetUserRoles(s1, email).response;
            && r.Ok?
            && multiset(r.body) == multiset(FindUser(s.users, email).value.roles) + multiset{roleName}
            && roleName in r.body
  {
    var s1 := AddUserToRole(s, email, roleName, true).state;
    SameEmailsSameIndex(s.users, s1.users, email);
  }

  /** After a successful CreateRole, the role listing holds every earlier role
      and the new role. */
  lemma CreateRoleThenGetAllRoles(s: Store, name: string)
    requires CreateRole(s, name, true).response.Ok?
    ensures var listed := GetAllRoles(CreateRole(s, name, true).state).response.body;
            && RoleRow(name) in listed
            && (forall role :: role in s.roles ==> RoleRow(role.name) in listed)
            && |listed| == |s.roles| + 1
  {
    var s1 := CreateRole(s, name, true).state;
    assert s1.roles[|s.roles|] == Role(name, []);
  }

  /** Adding a user to a role it did not hold and then removing it again,
      both with the store's success, restores the original store. */
  lemma AddThenRemoveRestores(s: Store, email: string, roleName: string)
    requires AddUserToRole(s, email, roleName, true).response.Ok?
    requires roleName !in FindUser(s.users, email).value.roles
    ensures var s1 := AddUserToRole(s, email, roleName, true).state;
            RemoveUserFromRole(s1, email, roleName, true).state == s
  {
    var s1 := AddUserToRole(s, email, roleName, true).state;
    var i := UserIndex(s.users, email).value;
    SameEmailsSameIndex(s.users, s1.users, email);
    var roles := s.users[i].roles;
    WithoutAppend(roles, [roleName], roleName);
    WithoutAbsent(roles, roleName);
    assert Without([roleName], roleName) == [];
    assert Without(roles + [roleName], roleName) == roles;
    assert s1.users[i].roles == roles + [roleName];
    var s2 := RemoveUserFromRole(s1, email, roleName, true).state;
    assert s2.users[i] == s.users[i];
    assert s2.users == s.users;
  }

  /** Two user lists with the same emails position by position have the same lookup. */
  lemma SameEmailsSameIndex(a: seq<User>, b: seq<User>, email: string)
    requires |a| == |b|
    requires forall j :: 0 <= j < |a| ==> a[j].email == b[j].email
    ensures UserIndex(a, email) == UserIndex(b, email)
  {
  }
}
