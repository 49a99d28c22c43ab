/** Assembly of the ordered claim list that a bearer token carries for a user
    (Controllers/AuthenticationController.cs, GetAllValidClaims). */
module Claims {
  import opened Http
  import opened Identity

  /** Claim-type tags. `sub`, `email`, `jti` and `iat` are the registered claim
      names of section 4.1 of RFC 7519; here they are only tags. */
  const IdKind := "id"
  const SubKind := "sub"
  const EmailKind := "email"
  const JtiKind := "jti"
  const IatKind := "iat"
  /** The framework's role claim type. */
  const RoleKind := "http://schemas.microsoft.com/ws/2008/06/identity/claims/role"

  /** The five claim types every assembled list opens with. */
  predicate Reserved(kind: string)
  {
    kind == IdKind || kind == SubKind || kind == EmailKind || kind == JtiKind || kind == IatKind
  }

  /** The five identity claims: identifier, subject, email, fresh token id, issue time. */
  function IdentityClaims(user: User, jti: string, issuedAt: string): seq<Claim>
  {
    [ Claim(IdKind, user.id),
      Claim(SubKind, user.email),
      Claim(EmailKind, user.email),
      Claim(JtiKind, jti),
      Claim(IatKind, issuedAt) ]
  }

  /** What one role name of the user adds: nothing when it does not resolve,
      otherwise a role claim carrying the name followed by the role's claims. */
  function RoleContribution(roles: seq<Role>, name: string): seq<Claim>
  {
    match FindRole(roles, name)
    case None => []
    case Some(role) => [Claim(RoleKind, name)] + role.claims
  }

  /** The role part of the claim list, for role names processed in order. */
  function RoleClaims(roles: seq<Role>, names: seq<string>): seq<Claim>
  {
    if |names| == 0 then []
    else RoleContribution(roles, names[0]) + RoleClaims(roles, names[1..])
  }

  /** Independent count: the sum over resolving role names of one plus the
      number of that role's claims. */
  function ResolvedWeight(roles: seq<Role>, names: seq<string>): nat
  {
    if |names| == 0 then 0
    else
      var w := match FindRole(roles, names[0])
        case None => 0
        case Some(role) => 1 + |role.claims|;
      w + ResolvedWeight(roles, names[1..])
  }

  /** The role names that resolve, in the user's order. */
  function Resolving(roles: seq<Role>, names: seq<string>): seq<string>
  {
    if |names| == 0 then []
    else (if RoleExists(roles, names[0]) then [names[0]] else []) + Resolving(roles, names[1..])
  }

  /** The values of the claims of type `kind`, in order. */
  function ValuesOfKind(claims: seq<Claim>, kind: string): seq<string>
  {
    if |claims| == 0 then []
    else (if claims[0].kind == kind then [claims[0].value] else []) + ValuesOfKind(claims[1..], kind)
  }

  /** Number of claims of type `kind`. */
  function CountOfKind(claims: seq<Claim>, kind: string): nat
  {
    |ValuesOfKind(claims, kind)|
  }

  /** No claim attached to any role has type `kind`. */
  predicate RolesFreeOf(roles: seq<Role>, kind: string)
  {
    forall i, j :: 0 <= i < |roles| && 0 <= j < |roles[i].claims| ==> roles[i].claims[j].kind != kind
  }

  /** The complete ordered claim list for `user`: the five identity claims, the
      user's direct claims unchanged, then the claims of the user's resolving roles. */
  function AllValidClaims(roles: seq<Role>, user: User, jti: string, issuedAt: string): (r: seq<Claim>)
    ensures |r| == 5 + |user.claims| + ResolvedWeight(roles, user.roles)
    ensures r[0] == Claim(IdKind, user.id)
    ensures r[1] == Claim(SubKind, user.email)
    ensures r[2] == Claim(EmailKind, user.email)
    ensures r[3] == Claim(JtiKind, jti)
    ensures r[4] == Claim(IatKind, issuedAt)
    ensures r[5..5 + |user.claims|] == user.claims
    ensures r[5 + |user.claims|..] == RoleClaims(roles, Resolving(roles, user.roles))
  {
    RoleClaimsLength(roles, user.roles);
    RoleClaimsResolvedOnly(roles, user.roles);
    var r := IdentityClaims(user, jti, issuedAt) + user.claims + RoleClaims(roles, user.roles);
    assert r[5..5 + |user.claims|] == user.claims;
    assert r[5 + |user.claims|..] == RoleClaims(roles, user.roles);
    r
  }

  /** The role part has exactly the length the independent count gives. */
  lemma {:induction false} RoleClaimsLength(roles: seq<Role>, names: seq<string>)
    ensures |RoleClaims(roles, names)| == ResolvedWeight(roles, names)
  {
    if |names| > 0 {
      RoleClaimsLength(roles, names[1..]);
    }
  }

  /** Role names are processed left to right: the role part of a concatenation
      is the concatenation of the role parts. */
  lemma {:induction false} RoleClaimsAppend(roles: seq<Role>, a: seq<string>, b: seq<string>)
    ensures RoleClaims(roles, a + b) == RoleClaims(roles, a) + RoleClaims(roles, b)
  {
    if |a| == 0 {
      assert a + b == b;
    } else {
      assert (a + b)[0] == a[0];
      assert (a + b)[1..] == a[1..] + b;
      RoleClaimsAppend(roles, a[1..], b);
    }
  }

  /** A role name that does not resolve contributes nothing: removing it
      from anywhere in the list leaves the role part unchanged. */
  lemma {:induction false} SkipsUnresolvedRole(roles: seq<Role>, a: seq<string>, name: string, b: seq<string>)
    requires !RoleExists(roles, name)
    ensures RoleClaims(roles, a + [name] + b) == RoleClaims(roles, a + b)
  {
    assert RoleClaims(roles, [name]) == [] by {
      assert RoleContribution(roles, name) == [];
      assert [name][1..] == [];
    }
    calc {
      RoleClaims(roles, a + [name] + b);
      { RoleClaimsAppend(roles, a + [name], b); }
      RoleClaims(roles, a + [name]) + RoleClaims(roles, b);
      { RoleClaimsAppend(roles, a, [name]); }
      RoleClaims(roles, a) + [] + RoleClaims(roles, b);
      { assert RoleClaims(roles, a) + [] == RoleClaims(roles, a); }
      RoleClaims(roles, a) + RoleClaims(roles, b);
      { RoleClaimsAppend(roles, a, b); }
      RoleClaims(roles, a + b);
    }
  }

  /** A role name that resolves contributes its role claim and then exactly
      the role's claims, in the role's order. */
  lemma ResolvedRoleContributes(roles: seq<Role>, name: string, i: nat)
    requires UniqueRoleNames(roles)
    requires i < |roles| && roles[i].name == name
    ensures RoleClaims(roles, [name]) == [Claim(RoleKind, name)] + roles[i].claims
  {
    UniqueRoleIndex(roles, i);
    assert RoleContribution(roles, name) == [Claim(RoleKind, name)] + roles[i].claims;
    assert [name][1..] == [];
    assert RoleClaims(roles, [name]) == RoleContribution(roles, name) + [];
  }

  /** Dropping the names that do not resolve leaves the role part unchanged. */
  lemma {:induction false} RoleClaimsResolvedOnly(roles: seq<Role>, names: seq<string>)
    ensures RoleClaims(roles, names) == RoleClaims(roles, Resolving(roles, names))
  {
    if |names| > 0 {
      var head := if RoleExists(roles, names[0]) then [names[0]] else [];
      RoleClaimsResolvedOnly(roles, names[1..]);
      RoleClaimsAppend(roles, head, Resolving(roles, names[1..]));
      if RoleExists(roles, names[0]) {
        assert RoleClaims(roles, head) == RoleContribution(roles, names[0]) + RoleClaims(roles, []);
      }
    }
  }

  /** Projection onto one claim type distributes over concatenation. */
  lemma {:induction false} ValuesOfKindAppend(a: seq<Claim>, b: seq<Claim>, kind: string)
    ensures ValuesOfKind(a + b, kind) == ValuesOfKind(a, kind) + ValuesOfKind(b, kind)
  {
    if |a| == 0 {
      assert a + b == b;
    } else {
      assert (a + b)[0] == a[0];
      assert (a + b)[1..] == a[1..] + b;
      ValuesOfKindAppend(a[1..], b, kind);
    }
  }

  /** A list none of whose claims has type `kind` projects to nothing. */
  lemma {:induction false} ValuesOfAbsentKind(claims: seq<Claim>, kind: string)
    requires forall j :: 0 <= j < |claims| ==> claims[j].kind != kind
    ensures ValuesOfKind(claims, kind) == []
  {
    if |claims| > 0 {
      ValuesOfAbsentKind(claims[1..], kind);
    }
  }

  /** When no role carries claims of type `kind` and `kind` is not the role
      claim type, the role part holds no claim of that type. */
  lemma {:induction false} RoleClaimsFreeOf(roles: seq<Role>, names: seq<string>, kind: string)
    requires RolesFreeOf(roles, kind)
    requires kind != RoleKind
    ensures ValuesOfKind(RoleClaims(roles, names), kind) == []
  {
    if |names| > 0 {
      var c := RoleContribution(roles, names[0]);
      ValuesOfKindAppend(c, RoleClaims(roles, names[1..]), kind);
      RoleClaimsFreeOf(roles, names[1..], kind);
      match FindRole(roles, names[0])
      case None =>
      case Some(role) =>
        var i :| 0 <= i < |roles| && roles[i] == role;
        ValuesOfKindAppend([Claim(RoleKind, names[0])], role.claims, kind);
        ValuesOfAbsentKind(role.claims, kind);
    }
  }

  /** When no role carries claims of the role claim type, the role claims of the
      role part name exactly the resolving roles, in the user's order. */
  lemma {:induction false} RoleTagsAreResolvedNames(roles: seq<Role>, names: seq<string>)
    requires RolesFreeOf(roles, RoleKind)
    ensures ValuesOfKind(RoleClaims(roles, names), RoleKind) == Resolving(roles, names)
  {
    if |names| > 0 {
      var c := RoleContribution(roles, names[0]);
      ValuesOfKindAppend(c, RoleClaims(roles, names[1..]), RoleKind);
      RoleTagsAreResolvedNames(roles, names[1..]);
      match FindRole(roles, names[0])
      case None =>
      case Some(role) =>
        var i :| 0 <= i < |roles| && roles[i] == role;
        ValuesOfKindAppend([Claim(RoleKind, names[0])], role.claims, RoleKind);
        ValuesOfAbsentKind(role.claims, RoleKind);
    }
  }

  /** The assembled list carries exactly one claim of each of the five identity
      types, provided neither the user's direct claims nor any role's claims use
      those types. */
  lemma ExactlyOneOfEachIdentityKind(roles: seq<Role>, user: User, jti: string, issuedAt: string, kind: string)
    requires Reserved(kind)
    requires forall j :: 0 <= j < |user.claims| ==> user.claims[j].kind != kind
    requires RolesFreeOf(roles, kind)
    ensures CountOfKind(AllValidClaims(roles, user, jti, issuedAt), kind) == 1
  {
    var ids := IdentityClaims(user, jti, issuedAt);
    var rc := RoleClaims(roles, user.roles);
    assert AllValidClaims(roles, user, jti, issuedAt) == ids + user.claims + rc;
    ValuesOfKindAppend(ids + user.claims, rc, kind);
    ValuesOfKindAppend(ids, user.claims, kind);
    ValuesOfAbsentKind(user.claims, kind);
    RoleClaimsFreeOf(roles, user.roles, kind);
    assert ids == [ids[0]] + [ids[1]] + [ids[2]] + [ids[3]] + [ids[4]];
    ValuesOfKindAppend([ids[0]] + [ids[1]] + [ids[2]] + [ids[3]], [ids[4]], kind);
    ValuesOfKindAppend([ids[0]] + [ids[1]] + [ids[2]], [ids[3]], kind);
    ValuesOfKindAppend([ids[0]] + [ids[1]], [ids[2]], kind);
    ValuesOfKindAppend([ids[0]], [ids[1]], kind);
  }

  /** The role claims of the whole list name exactly the user's resolving roles,
      in order, provided no direct or role-attached claim uses the role type. */
  lemma RoleTagsMatchMembership(roles: seq<Role>, user: User, jti: string, issuedAt: string)
    requires forall j :: 0 <= j < |user.claims| ==> user.claims[j].kind != RoleKind
    requires RolesFreeOf(roles, RoleKind)
    ensures ValuesOfKind(AllValidClaims(roles, user, jti, issuedAt), RoleKind) == Resolving(roles, user.roles)
  {
    var ids := IdentityClaims(user, jti, issuedAt);
    var rc := RoleClaims(roles, user.roles);
    assert AllValidClaims(roles, user, jti, issuedAt) == ids + user.claims + rc;
    ValuesOfKindAppend(ids + user.claims, rc, RoleKind);
    ValuesOfAbsentKind(ids + user.claims, RoleKind);
    RoleTagsAreResolvedNames(roles, user.roles);
  }

  /** Assembly is not idempotent: two assemblies with distinct token ids differ. */
  lemma FreshTokenIdsDiffer(roles: seq<Role>, user: User, jti1: string, jti2: string, issuedAt: string)
    requires jti1 != jti2
    ensures AllValidClaims(roles, user, jti1, issuedAt) != AllValidClaims(roles, user, jti2, issuedAt)
  {
  }
}
