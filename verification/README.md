# Identity and hotel service — a Dafny model of the controllers

This project models what the three controllers of a small ASP.NET identity
service decide by themselves. It also proves properties of that model.

- **AuthenticationController** registers users and logs them in. It assembles
  the ordered claim list that a bearer token carries and fixes the token's expiry.
- **SetupController** creates roles, lists roles and users, and adds users to
  roles or removes them.
- **HotelsController** offers create, read, update and delete over hotel records.

Password hashing, persistence, JWT serialisation and signing, routing and
authorization belong to the frameworks. The model covers none of them. Each
outcome those libraries decide is an explicit input to the endpoint:

- whether user creation succeeded;
- the stored password hash and the new user's identifier;
- whether the password check passed;
- whether a role was created, and whether a membership was added or removed;
- the key the database gives a new hotel;
- the fresh token id (a GUID string), the formatted issue time and the clock reading.

Every endpoint is a pure function from (state, request, outcomes) to a `Step`.
A `Step` holds the response and the new state.

Modules, one per file:

| file | module | what it holds |
|---|---|---|
| http.dfy | `Http` | `Option`, the `Response` shapes (200/201/204/400/500), `Step` |
| identity.dfy | `Identity` | claims, users, roles, the store, lookups by email and by role name, uniqueness invariants |
| claims.dfy | `Claims` | the claim-type tags and the claim list assembly, with its structure lemmas |
| tokens.dfy | `Tokens` | a token as (claims, expiry) and the one-day expiry rule |
| authentication.dfy | `Authentication` | `Register` and `Login` |
| setup.dfy | `Setup` | the role administration endpoints |
| hotels.dfy | `Hotels` | the hotel record and its endpoints over a map from id to record |

The claim types `sub`, `email`, `jti` and `iat` are the registered claim names
of section 4.1 of RFC 7519. The model treats them only as tags. The role claim
type is the framework's role claim URI. Time is counted in 100-nanosecond
ticks, so one day is 864,000,000,000 ticks.

A user's direct claims and role names are read from the store as lists. The
model keeps them as sequences in the order the store lists them. The store
promises no order for its user and role listings. The model appends new
records at the end, so listing lemmas compare contents as multisets.

For an unknown role, both membership endpoints answer with the literal message
"The Role {roleName} has not been added successfully exist".

## Model

| member | source | states |
|---|---|---|
| Identity.UserIndex | Controllers/AuthenticationController.cs:39-41 | Finds the first user holding the email, or reports that no user holds it. Both directions are proved. |
| Identity.FindUser | Controllers/AuthenticationController.cs:95-97 | The user lookup succeeds exactly when some stored user has that email, and then returns a stored user with that email. |
| Identity.RoleIndex | Controllers/SetupController.cs:86-88 | Finds the first role with that name, or reports that no role has it. This is the role-exists check. |
| Identity.FindRole | Controllers/AuthenticationController.cs:162-163 | The role lookup by name succeeds exactly when a role with that name is stored. |
| Identity.UniqueUserIndex | Controllers/AuthenticationController.cs:39-50 | When emails are unique, looking up a user's email finds exactly that user. |
| Identity.UniqueRoleIndex | Controllers/SetupController.cs:36-41 | When role names are unique, looking up a role's name finds exactly that role. |
| Identity.UniqueNameCountsOnce | Controllers/SetupController.cs:36-61 | When role names are unique, an existing name is held by exactly one role. |
| Claims.AllValidClaims | Controllers/AuthenticationController.cs:140-174 | The claim list opens with id=user id, sub=email, email=email, jti=fresh value, iat=issue time, in that order. The user's direct claims follow unchanged, then the role part. Its length is 5 + (number of direct claims) + the sum, over resolving roles, of 1 + (number of that role's claims). |
| Claims.RoleClaimsLength | Controllers/AuthenticationController.cs:159-172 | The length of the role part equals that sum, which is defined independently. |
| Claims.RoleClaimsAppend | Controllers/AuthenticationController.cs:159-172 | Role names are processed in order: the role part of a + b is the role part of a followed by that of b. |
| Claims.SkipsUnresolvedRole | Controllers/AuthenticationController.cs:162-163 | A role name that does not resolve contributes nothing and raises no error. Removing it from any position leaves the list unchanged. |
| Claims.ResolvedRoleContributes | Controllers/AuthenticationController.cs:163-170 | A role that resolves contributes one role claim carrying its name, followed by exactly that role's claims. |
| Claims.RoleClaimsResolvedOnly | Controllers/AuthenticationController.cs:159-172 | The role part is the same as the role part of the resolving names alone. |
| Claims.RoleTagsAreResolvedNames | Controllers/AuthenticationController.cs:159-172 | If no role-attached claim uses the role type, the role claims of the role part name exactly the resolving roles, in the user's order. |
| Claims.ExactlyOneOfEachIdentityKind | Controllers/AuthenticationController.cs:143-172 | If no direct or role-attached claim uses a reserved type, the list carries exactly one id, sub, email, jti and iat claim. |
| Claims.RoleTagsMatchMembership | Controllers/AuthenticationController.cs:153-172 | If no direct or role-attached claim uses the role type, the role claims of the whole list are exactly the user's resolving role names, in order. |
| Claims.FreshTokenIdsDiffer | Controllers/AuthenticationController.cs:148 | Assembly is not idempotent: two different token ids give two different claim lists. |
| Tokens.GenerateToken | Controllers/AuthenticationController.cs:176-196 | The token carries exactly the user's assembled claim list, and it expires exactly one day after the clock reading of issuance. |
| Tokens.DistinctIssuancesDiffer | Controllers/AuthenticationController.cs:182-188 | Two issuances with different token ids never produce the same token. |
| Authentication.NewUser | Controllers/AuthenticationController.cs:53-58 | The record user creation saves has Email and UserName both equal to the request email, no direct claims and no roles yet. |
| Authentication.JoinedUser | Controllers/AuthenticationController.cs:64 | The new user after the request to join "client": the same record, holding "client" exactly when joining succeeded. |
| Authentication.Register | Controllers/AuthenticationController.cs:32-86 | An invalid model gets a bare 400. A taken email gets Result=false, ["Email already exist"] and no token. A failed creation gets ["Server Error"] and no token. These leave the store unchanged. Once creation succeeds the user stays saved. With no "client" role, joining it throws, so the request ends as a 500 with no token. Otherwise the response is Result=true with a token for the new user, whatever the joining outcome. |
| Authentication.LoginModelValid | Models/DTOs/UserLoginRequestDto.cs:7-10 | A login model is valid exactly when both fields are present and neither is empty or only white space. White space is every character .NET classifies as such. |
| Authentication.Login | Controllers/AuthenticationController.cs:90-138 | Checks run in order, each with its own message and no token: "Invalid payload" (model), "Invalid Payload" (email), "Invalid credentials" (password). Success issues a token for the stored user, with no errors. Login never changes the store. |
| Authentication.TokenIffSuccess | Controllers/AuthenticationController.cs:43-137 | Every Register or Login envelope carries a token exactly when its Result is true. |
| Authentication.RegisterPreservesUniqueEmails | Controllers/AuthenticationController.cs:39-73 | Register keeps emails unique across the store. |
| Authentication.RegisterTwiceRejected | Controllers/AuthenticationController.cs:39-58 | Once a registration has saved the user, a second one with the same email fails with "Email already exist" and leaves the store unchanged. |
| Authentication.SavedUserAppended | Controllers/AuthenticationController.cs:53-64 | A saving registration keeps every earlier user in place and appends one user with the request email and the new id. |
| Authentication.RegisterThenLogin | Controllers/AuthenticationController.cs:53-128 | After a registration that saved the user, a login with the same email and an accepted password succeeds and changes nothing. This holds even when the registration then failed on the missing "client" role. Its token opens with the new user's id and email. |
| Authentication.RegisterIgnoresRoleOutcome | Controllers/AuthenticationController.cs:64-73 | The outcome of joining role "client" is never inspected: Register succeeds with a token either way. |
| Authentication.RegisterThenGetAllUsers | Controllers/SetupController.cs:66-70 | After a registration that saved the user, the user listing holds the earlier users' rows plus the saved user's row, compared as multisets. That row has the new identifier, Email and UserName equal to the request email, and the new password hash. |
| Setup.Without | Controllers/SetupController.cs:156 | Removing a role name from a role list keeps every other name and drops that one. |
| Setup.GetAllRoles | Controllers/SetupController.cs:26-30 | Returns one row per stored role, holding its name and not its claims. Every stored role is listed and every listed row names a stored role. Nothing changes. |
| Setup.GetAllUsers | Controllers/SetupController.cs:66-70 | Returns one row per stored user: identifier, email, user name and password hash, without claims or role memberships. Every stored user is listed and every listed row comes from a stored user. Nothing changes. |
| Setup.CreateRole | Controllers/SetupController.cs:33-62 | An existing name gets "Role already exist" and no change. Otherwise, a store success adds the role and answers "The Role {name} has been added successfully". A store failure answers "The Role {name} has not been added successfully" and changes nothing. Afterwards the role exists exactly when it existed before or creation succeeded. |
| Setup.AddUserToRole | Controllers/SetupController.cs:74-109 | The user is checked before the role. Either missing gives its own message and no change. On store success the role name is appended to that user's roles only. On store failure the answer is "The user was not able to added to the role". |
| Setup.GetUserRoles | Controllers/SetupController.cs:113-128 | An unknown email gets "User does not exist". Otherwise the answer is exactly that user's role list. Neither path changes the store. |
| Setup.RemoveUserFromRole | Controllers/SetupController.cs:132-163 | Same guards and messages as AddUserToRole, in the same order. On store success the role name leaves that user's roles only, with "User {email} has been removed from role {roleName}". Otherwise the answer is "Unable to remove User {email} from role {roleName}". |
| Setup.UserCheckedFirst | Controllers/SetupController.cs:77-83 | For an unknown email, both membership endpoints answer "User does not exist" whatever the role and whatever the store's outcome. |
| Setup.CreateRoleKeepsNamesUnique | Controllers/SetupController.cs:36-61 | CreateRole keeps role names unique and never duplicates a role record. |
| Setup.MembershipKeepsWellFormed | Controllers/SetupController.cs:97-162 | Adding and removing memberships keep the store's uniqueness invariants. |
| Setup.AddThenGetRoles | Controllers/SetupController.cs:97-127 | After a successful add, GetUserRoles reports the user's old roles plus the new one, as a multiset. |
| Setup.CreateRoleThenGetAllRoles | Controllers/SetupController.cs:26-58 | After a successful CreateRole, the role listing holds the new role's row, every earlier role's row, and one more entry than before. |
| Setup.AddThenRemoveRestores | Controllers/SetupController.cs:97-162 | Adding a role the user lacked and then removing it, both succeeding, restores the original store. |
| Hotels.GetAll | Controllers/HotelsController.cs:24-28 | Returns every hotel. In a well-keyed table it returns nothing else. Nothing changes. |
| Hotels.Get | Controllers/HotelsController.cs:31-41 | Returns the hotel whose Id equals id, or "Invalid Id" exactly when none exists. Nothing changes. |
| Hotels.Post | Controllers/HotelsController.cs:44-50 | Adds the hotel under its key and answers with the stored record. Existing hotels are unchanged. A key clash is a server error that changes nothing. |
| Hotels.Patch | Controllers/HotelsController.cs:53-65 | A missing id gets "Invalid Id" and no change. Otherwise only that hotel's Name changes: same keys, other hotels unchanged, and the answer is NoContent. |
| Hotels.Delete | Controllers/HotelsController.cs:68-81 | A missing id gets "Invalid Id" and no change. Otherwise exactly that hotel is removed, and the answer is NoContent. |
| Hotels.OperationsKeepWellKeyed | Controllers/HotelsController.cs:44-81 | Post, Patch and Delete each keep every record stored under its own Id. |
| Hotels.PostThenGet | Controllers/HotelsController.cs:33-49 | A hotel that Post added can be retrieved by its Id. |
| Hotels.PatchThenGet | Controllers/HotelsController.cs:55-64 | After a Patch, Get returns the new Name. Address, Pays, City, Phone, Stars and Points are as before. |
| Hotels.PatchIdempotent | Controllers/HotelsController.cs:62-64 | Patching twice with the same name gives the same result as patching once. |
| Hotels.DeleteThenGet | Controllers/HotelsController.cs:70-80 | After a successful Delete, the id answers "Invalid Id". |

## Left out

- JWT serialisation and HS256 signing (section 3.2 of RFC 7518) are library calls. A token is modelled as the pair (claims, expiry). The signing secret is left out with signing. It is read on every token generation, so a missing or short secret makes token creation throw; in Register that happens after the user has been saved, and the request ends as a 500.
- The `iat` value is a culture-formatted date string, not a NumericDate. It is an opaque input, as are the GUID token id and the clock reading.
- Tokens.GenerateToken: expiry uses a separate clock reading from the one formatted into `iat`. The model takes both as inputs and does not relate them. It also omits the exception that adding a day would raise at the top of the date range. The day is added to local wall-clock time, so across a daylight-saving change the UTC expiry can be 23 or 25 hours after issue. The model counts a fixed 24 hours.
- Password hashing, password policy and the rehash that a password check may write back: the outcomes are inputs, and Login is modelled as never writing.
- Identity lookups compare normalised (upper-cased) emails and role names. The model compares strings exactly.
- Identity's duplicate-membership rules and user-name validation are folded into the membership and creation outcome inputs.
- Authentication.Register: the missing-"client"-role exception is decided from the store, by exact name. The 500 it produces is modelled as a bare `Unhandled` response with the user still saved.
- Setup.GetAllUsers, Setup.GetAllRoles: the rows keep the columns a caller can act on. The serialised entity also carries normalised names, stamps, lockout and confirmation flags, which the model does not hold.
- Setup.AddUserToRole: the model appends the new role name to the user's role list. The store keeps memberships as unordered rows, so the position in a later listing is a choice of the model.
- Setup.AddThenGetRoles: because of that, the lemma states the listed roles as a multiset, not as a sequence.
- UserRegistrationRequestDto is not part of this model. Whether a registration model is valid is therefore an input. Login validity follows UserLoginRequestDto: both fields required, so missing, empty or white-space-only text is invalid.
- Authentication.Login: the "Invalid payload" branch is modelled as the action code writes it. With the framework's automatic 400 for invalid models in force, that branch is not reached in the running service. The automatic filter is framework behaviour and is not modelled.
- Authentication.Register: the same automatic 400 also answers an invalid registration model before the action runs. The model keeps the action's own bare 400 branch, which gives the same status with a different body.
- A null `name`, `email` or `roleName` query value (which makes the lookups throw) is not modelled: strings are always present.
- Logging is left out, including the swapped success and failure log lines in CreateRole and the console line in Register.
- async/await, HTTP routing and status codes are reduced to the `Response` shapes. This includes the route values of `CreatedAtAction`.
- The `[Authorize(Roles = "Client")]` attribute on the hotel endpoints is enforced by the framework and is not modelled. So is the static `_context` field, which matters only for concurrency.
- Hotels.Post: the key is a non-zero client-supplied Id, or else a database-generated value. Whether a provider refuses an explicit Id, and the framework's validation of the posted record, are left to the database and the framework.
- Hotel integer fields are unbounded integers. No arithmetic is done on them, so 32-bit width never matters.
- Data/AppDbContext.cs is ORM plumbing and is not part of this model.
