/** Token issuance (Controllers/AuthenticationController.cs, GenerateJwtToken).
    Serialisation and signing are library work; a token is modelled as the
    claim list it carries and its expiry instant. */
module Tokens {
  import opened Identity
  import opened Claims

  /** Clock ticks are 100-nanosecond units; one day is 24 * 3600 * 10^7 ticks. */
  const TicksPerDay: int := 864_000_000_000

  /** An issued bearer token: its claims and its expiry, in clock ticks. */
  datatype Token = Token(claims: seq<Claim>, expires: int)

  /** The values the environment supplies at issuance: a fresh GUID string for
      the token id, the issue time already formatted as text, and the clock
      reading used for the expiry. */
  datatype Issuance = Issuance(jti: string, issuedAt: string, now: int)

  /** The token issued for `user`: it carries the user's assembled claims,
      including the fresh token id, and expires exactly one day after the clock
      reading of issuance. */
  function GenerateToken(roles: seq<Role>, user: User, iss: Issuance): (t: Token)
    ensures t.expires - iss.now == TicksPerDay
    ensures t.claims == AllValidClaims(roles, user, iss.jti, iss.issuedAt)
    ensures |t.claims| == 5 + |user.claims| + ResolvedWeight(roles, user.roles)
    ensures t.claims[0] == Claim(IdKind, user.id)
    ensures t.claims[3] == Claim(JtiKind, iss.jti)
    ensures t.claims[4] == Claim(IatKind, iss.issuedAt)
  {
    Token(AllValidClaims(roles, user, iss.jti, iss.issuedAt), iss.now + TicksPerDay)
  }

  /** Two issuances with distinct token ids never produce the same token. */
  lemma DistinctIssuancesDiffer(roles: seq<Role>, user: User, a: Issuance, b: Issuance)
    requires a.jti != b.jti
    ensures GenerateToken(roles, user, a) != GenerateToken(roles, user, b)
  {
  }
}
