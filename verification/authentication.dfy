/** The Register and Login endpoints (Controllers/AuthenticationController.cs).
    Each is a pure function from the store, the request and the outcomes the
    identity framework decides, to the response and the new store. */
module Authentication {
  import opened Http
  import opened Identity
  import opened Claims
  import opened Tokens
  import Setup

  /** The result envelope: success flag, token when issued, error messages
      (empty when the source leaves the list null). */
  datatype AuthResult = AuthResult(result: bool, token: Option<Token>, errors: seq<string>)

  /** 200 with an envelope, 400 with an envelope, 400 with no body, or an
      exception escaping the action (500, no envelope, no token); `Unhandled`
      is the same outcome as `Http.ServerError`. */
  datatype AuthResponse =
    | Accepted(body: AuthResult)
    | Rejected(body: AuthResult)
    | BareBadRequest
    | Unhandled

  /** The role every newly registered user is asked to join. */
  const ClientRole := "client"

  const EmailTaken := "Email already exist"
  const ServerFailure := "Server Error"
  const InvalidPayload := "Invalid payload"
  const UnknownEmail := "Invalid Payload"
  const WrongPassword := "Invalid credentials"

  /** A registration request. Its validation attributes are declared in
      UserRegistrationRequestDto, which is not part of this model, so whether
      the bound model is valid is an input. */
  datatype RegistrationRequest = RegistrationRequest(email: string, password: string)

  /** What the identity framework decides during registration: the identifier
      the new user record receives, the hash it stores for the password, whether
      user creation succeeded, and, when the "client" role exists, whether
      joining it succeeded. A missing "client" role is read from the store. */
  datatype RegistrationOutcomes = RegistrationOutcomes(
    userId: string,
    passwordHash: string,
    created: bool,
    roleAdded: bool)

  /** A login request as bound from the body; a field may be missing. */
  datatype LoginRequest = LoginRequest(email: Option<string>, password: Option<string>)

  /** The characters .NET classifies as white space. */
  predicate IsWhiteSpace(c: char)
  {
    ('\U{9}' <= c <= '\U{D}') || c == '\U{20}' || c == '\U{85}' || c == '\U{A0}'
    || c == '\U{1680}' || ('\U{2000}' <= c <= '\U{200A}') || c == '\U{2028}' || c == '\U{2029}'
    || c == '\U{202F}' || c == '\U{205F}' || c == '\U{3000}'
  }

  /** What a required string field rejects: missing, empty or only white space. */
  predicate IsNullOrWhiteSpace(field: Option<string>)
  {
    field.None? || forall i :: 0 <= i < |field.value| ==> IsWhiteSpace(field.value[i])
  }

  /** A field holds text: it is present and some character is not white space. */
  predicate HasText(field: Option<string>)
  {
    field.Some? && exists i :: 0 <= i < |field.value| && !IsWhiteSpace(field.value[i])
  }

  /** A login model is valid exactly when both required fields hold text. */
  function LoginModelValid(req: LoginRequest): (ok: bool)
    ensures ok <==> HasText(req.email) && HasText(req.password)
    ensures ok ==> |req.email.value| > 0 && |req.password.value| > 0
  {
    !IsNullOrWhiteSpace(req.email) && !IsNullOrWhiteSpace(req.password)
  }

  /** A failed envelope with one error message. */
  function Failure(message: string): (r: AuthResult)
    ensures !r.result && r.token.None? && r.errors == [message]
  {
    AuthResult(false, None, [message])
  }

  /** The user record user creation saves: email and user name are both the
      request email; it has no direct claims and no roles yet. */
  function NewUser(req: RegistrationRequest, out: RegistrationOutcomes): (u: User)
    ensures u.email == req.email && u.userName == req.email
    ensures u.id == out.userId && u.passwordHash == out.passwordHash
    ensures u.claims == [] && u.roles == []
  {
    User(out.userId, req.email, req.email, out.passwordHash, [], [])
  }

  /** The new user once the request to join "client" has been answered. */
  function JoinedUser(req: RegistrationRequest, out: RegistrationOutcomes): (u: User)
    ensures u == NewUser(req, out).(roles := u.roles)
    ensures out.roleAdded <==> ClientRole in u.roles
    ensures |u.roles| <= 1
  {
    NewUser(req, out).(roles := if out.roleAdded then [ClientRole] else [])
  }

  /** Register: an invalid model is a bare 400; a taken email and a failed
      creation leave the store unchanged and issue no token. Once creation has
      succeeded the new user stays in the store: when no "client" role exists,
      joining it throws and the request ends without a token; otherwise a token
      for the new user is returned whatever the outcome of joining. */
  function Register(s: Store, req: RegistrationRequest, modelValid: bool,
                    out: RegistrationOutcomes, iss: Issuance): (r: Step<AuthResponse, Store>)
    ensures !modelValid ==> r == Step(BareBadRequest, s)
    ensures modelValid && FindUser(s.users, req.email).Some? ==>
              r == Step(Rejected(Failure(EmailTaken)), s)
    ensures modelValid && FindUser(s.users, req.email).None? && !out.created ==>
              r == Step(Rejected(Failure(ServerFailure)), s)
    ensures modelValid && FindUser(s.users, req.email).None? && out.created
              && !RoleExists(s.roles, ClientRole) ==>
              r == Step(Unhandled, s.(users := s.users + [NewUser(req, out)]))
    ensures r.response.Accepted? <==>
              modelValid && FindUser(s.users, req.email).None? && out.created
              && RoleExists(s.roles, ClientRole)
    ensures r.response.Accepted? ==>
              && r.state.roles == s.roles
              && r.state.users == s.users + [JoinedUser(req, out)]
              && r.response.body.result
              && r.response.body.token == Some(GenerateToken(s.roles, JoinedUser(req, out), iss))
              && r.response.body.errors == []
    ensures !(modelValid && FindUser(s.users, req.email).None? && out.created) ==> r.state == s
  {
    if !modelValid then Step(BareBadRequest, s)
    else if FindUser(s.users, req.email).Some? then Step(Rejected(Failure(EmailTaken)), s)
    else if !out.created then Step(Rejected(Failure(ServerFailure)), s)
    else if !RoleExists(s.roles, ClientRole) then
      Step(Unhandled, s.(users := s.users + [NewUser(req, out)]))
    else
      var user := JoinedUser(req, out);
      var s' := s.(users := s.users + [user]);
      Step(Accepted(AuthResult(true, Some(GenerateToken(s'.roles, user, iss)), [])), s')
  }

  /** Whether Register saves a new user: the model is valid, the email is free
      and creation succeeded. */
  predicate Saves(s: Store, req: RegistrationRequest, modelValid: bool, out: RegistrationOutcomes)
  {
    modelValid && FindUser(s.users, req.email).None? && out.created
  }

  /** Login: checks, in order, the model, the email and the password; each
      failure answers with its own message and no token. Login never changes
      the store. */
  function Login(s: Store, req: LoginRequest, passwordOk: bool, iss: Issuance): (r: Step<AuthResponse, Store>)
    ensures r.state == s
    ensures !LoginModelValid(req) ==> r.response == Rejected(Failure(InvalidPayload))
    ensures LoginModelValid(req) && FindUser(s.users, req.email.value).None? ==>
              r.response == Rejected(Failure(UnknownEmail))
    ensures LoginModelValid(req) && FindUser(s.users, req.email.value).Some? && !passwordOk ==>
              r.response == Rejected(Failure(WrongPassword))
    ensures r.response.Accepted? <==>
              LoginModelValid(req) && FindUser(s.users, req.email.value).Some? && passwordOk
    ensures r.response.Accepted? ==>
              && r.response.body.result
              && r.response.body.token ==
                   Some(GenerateToken(s.roles, FindUser(s.users, req.email.value).value, iss))
              && r.response.body.errors == []
  {
    if !LoginModelValid(req) then Step(Rejected(Failure(InvalidPayload)), s)
    else
      match FindUser(s.users, req.email.value)
      case None => Step(Rejected(Failure(UnknownEmail)), s)
      case Some(user) =>
        if !passwordOk then Step(Rejected(Failure(WrongPassword)), s)
        else Step(Accepted(AuthResult(true, Some(GenerateToken(s.roles, user, iss)), [])), s)
  }

  /** Every response of Register and Login carries a token exactly when it reports success. */
  lemma TokenIffSuccess(s: Store, rreq: RegistrationRequest, modelValid: bool,
                        out: RegistrationOutcomes, lreq: LoginRequest, passwordOk: bool, iss: Issuance)
    ensures var r := Register(s, rreq, modelValid, out, iss).response;
            r.Accepted? || r.Rejected? ==> (r.body.result <==> r.body.token.Some?)
    ensures var r := Login(s, lreq, passwordOk, iss).response;
            r.Accepted? || r.Rejected? ==> (r.body.result <==> r.body.token.Some?)
  {
  }

  /** Register keeps emails unique: it only ever appends a user whose email was absent. */
  lemma RegisterPreservesUniqueEmails(s: Store, req: RegistrationRequest, modelValid: bool,
                                      out: RegistrationOutcomes, iss: Issuance)
    requires UniqueEmails(s.users)
    ensures UniqueEmails(Register(s, req, modelValid, out, iss).state.users)
  {
  }

  /** The store after a saving Register holds the earlier users followed by one
      user carrying the request email. */
  lemma SavedUserAppended(s: Store, req: RegistrationRequest, out: RegistrationOutcomes, iss: Issuance)
    requires Saves(s, req, true, out)
    ensures var users := Register(s, req, true, out, iss).state.users;
            && |users| == |s.users| + 1
            && users[..|s.users|] == s.users
            && users[|s.users|].email == req.email
            && users[|s.users|].id == out.userId
  {
  }

  /** Registering the same email a second time fails with "Email already exist"
      and leaves the store as the first registration left it, whether or not the
      first one answered with a token. */
  lemma RegisterTwiceRejected(s: Store, req: RegistrationRequest, out1: RegistrationOutcomes,
                              out2: RegistrationOutcomes, iss1: Issuance, iss2: Issuance)
    requires Saves(s, req, true, out1)
    ensures var s1 := Register(s, req, true, out1, iss1).state;
            Register(s1, req, true, out2, iss2) == Step(Rejected(Failure(EmailTaken)), s1)
  {
    SavedUserAppended(s, req, out1, iss1);
  }

  /** After a registration that saved the user (even one that then failed on
      the missing "client" role), logging in with the same email and a password
      the store accepts succeeds, changes nothing, and issues a token for the
      new user: its identifier and email open the claim list. */
  lemma RegisterThenLogin(s: Store, req: RegistrationRequest, out: RegistrationOutcomes,
                          iss1: Issuance, iss2: Issuance)
    requires Saves(s, req, true, out)
    requires LoginModelValid(LoginRequest(Some(req.email), Some(req.password)))
    ensures var s1 := Register(s, req, true, out, iss1).state;
            var r := Login(s1, LoginRequest(Some(req.email), Some(req.password)), true, iss2);
            && r.state == s1
            && r.response.Accepted?
            && r.response.body.token.Some?
            && r.response.body.token.value.claims[0] == Claim(IdKind, out.userId)
            && r.response.body.token.value.claims[2] == Claim(EmailKind, req.email)
  {
    var s1 := Register(s, req, true, out, iss1).state;
    SavedUserAppended(s, req, out, iss1);
    var k := UserIndex(s1.users, req.email);
    assert k.Some?;
    assert k.value == |s.users|;
  }

  /** The outcome of joining the "client" role is never inspected: the response
      is a success with a token either way. */
  lemma RegisterIgnoresRoleOutcome(s: Store, req: RegistrationRequest, out: RegistrationOutcomes, iss: Issuance)
    requires Register(s, req, true, out, iss).response.Accepted?
    ensures var r := Register(s, req, true, out.(roleAdded := !out.roleAdded), iss).response;
            r.Accepted? && r.body.result && r.body.token.Some?
  {
  }

  /** The record a saving Register stores: the joined user when the "client"
      role exists, otherwise the user as creation saved it. */
  function SavedUser(s: Store, req: RegistrationRequest, out: RegistrationOutcomes): (u: User)
    ensures u.email == req.email && u.userName == req.email && u.id == out.userId
    ensures u.passwordHash == out.passwordHash
    ensures u.roles == [] || (u.roles == [ClientRole] && RoleExists(s.roles, ClientRole))
  {
    if RoleExists(s.roles, ClientRole) then JoinedUser(req, out) else NewUser(req, out)
  }

  /** After a saving Register, the user listing holds the earlier users' rows
      and the new user's row, as a multiset: the store promises no listing order. */
  lemma RegisterThenGetAllUsers(s: Store, req: RegistrationRequest, out: RegistrationOutcomes, iss: Issuance)
    requires Saves(s, req, true, out)
    ensures var listed := Setup.GetAllUsers(Register(s, req, true, out, iss).state).response.body;
            multiset(listed) == multiset(UserRows(s.users)) + multiset{UserRow(out.userId, req.email, req.email, out.passwordHash)}
  {
    var users := Register(s, req, true, out, iss).state.users;
    assert users == s.users + [SavedUser(s, req, out)];
    assert UserRows(users) == UserRows(s.users) + [UserRowOf(SavedUser(s, req, out))];
  }
}
