/**
 * The bearer token the server issues (`CreateJWT`) and the identity handlers
 * read back from it (`getUserId`). The token is its claims record; its
 * serialisation and HMAC-SHA256 signature are not modelled.
 */
module Jwt {
  import opened Nullable
  import opened Int32Text
  import opened Query
  import opened Models

  /** `AddDays(7)`, in seconds, the unit of a token's time claims. */
  const Lifetime: int := 7 * 24 * 60 * 60

  const IdClaim: string := "id"
  const NameClaim: string := "name"
  /** The name claim's value for a user without a username. */
  const UnknownName: string := "Unknown"

  datatype Claim = Claim(kind: string, value: string)

  /**
   * The process-wide settings `Jwt:Issuer` and `Jwt:Audience` (either may be
   * absent), and whether `Jwt:Key` is present and long enough for the
   * token library to sign with HMAC-SHA256.
   */
  datatype Config = Config(issuer: Option<string>, audience: Option<string>, signingKeyUsable: bool)

  /** A token's payload: its subject claims, its time claims and its issuer and audience. */
  datatype Token = Token(
    subject: seq<Claim>,
    issuedAt: int,
    notBefore: int,
    expires: int,
    issuer: Option<string>,
    audience: Option<string>)

  function KindIs(kind: string): Claim -> bool
  {
    (c: Claim) => c.kind == kind
  }

  /** `principal.FindFirst(kind)?.Value`: the value of the first claim of that kind. */
  function FindFirst(claims: seq<Claim>, kind: string): (r: Option<string>)
    ensures r.None? <==> forall i :: 0 <= i < |claims| ==> claims[i].kind != kind
    ensures r.Some? ==>
      exists i :: 0 <= i < |claims| && claims[i] == Claim(kind, r.value)
        && forall j :: 0 <= j < i ==> claims[j].kind != kind
  {
    match First(claims, KindIs(kind))
    case None => None
    case Some(i) => Some(claims[i].value)
  }

  /**
   * `CreateJWT(user)` at time `now`: the subject claims `id` and `name`, the
   * configured issuer and audience, valid from `now` for seven days.
   * `None` is the exception thrown when the signing key is missing or too short.
   */
  function CreateJwt(user: User, now: int, config: Config): (r: Option<Token>)
    ensures r.Some? <==> config.signingKeyUsable
    ensures r.Some? ==> FindFirst(r.value.subject, IdClaim) == Some(ToDecimal(user.id))
    ensures r.Some? ==> FindFirst(r.value.subject, NameClaim) == Some(Coalesce(user.username, UnknownName))
    ensures r.Some? ==> forall c :: c in r.value.subject ==> c.kind in {IdClaim, NameClaim}
    ensures r.Some? ==> r.value.issuedAt == r.value.notBefore == now && r.value.expires == now + Lifetime
    ensures r.Some? ==> r.value.issuer == config.issuer && r.value.audience == config.audience
  {
    if !config.signingKeyUsable then None
    else
      var claims := [Claim(IdClaim, ToDecimal(user.id)), Claim(NameClaim, Coalesce(user.username, UnknownName))];
      assert FindFirst(claims, NameClaim) == Some(claims[1].value) by {
        assert claims[0].kind != NameClaim;
      }
      Some(Token(claims, now, now, now + Lifetime, config.issuer, config.audience))
  }

  /** `getUserId(principal)`: the `id` claim parsed as an `int`, or 0 when it is missing or does not parse. */
  function GetUserId(principal: seq<Claim>): (r: Int32)
    ensures FindFirst(principal, IdClaim).None? ==> r == 0
    ensures forall n: Int32 :: TryParse(FindFirst(principal, IdClaim)) == Some(n) ==> r == n
    ensures TryParse(FindFirst(principal, IdClaim)).None? ==> r == 0
  {
    match TryParse(FindFirst(principal, IdClaim))
    case Some(n) => n
    case None => 0
  }

  /**
   * The claims the bearer middleware attaches to a request that presents `t`:
   * the subject claims, then the registered time, issuer and audience claims.
   */
  function Principal(t: Token): (r: seq<Claim>)
    ensures |r| >= |t.subject| && r[..|t.subject|] == t.subject
  {
    t.subject
      + [Claim("nbf", ToDecimal(t.notBefore)), Claim("exp", ToDecimal(t.expires)), Claim("iat", ToDecimal(t.issuedAt))]
      + (if t.issuer.Some? then [Claim("iss", t.issuer.value)] else [])
      + (if t.audience.Some? then [Claim("aud", t.audience.value)] else [])
  }

  predicate NoIdClaim(claims: seq<Claim>)
  {
    forall i :: 0 <= i < |claims| ==> claims[i].kind != IdClaim
  }

  /**
   * The round trip of `user.Id.ToString()` with `int.TryParse`: a principal
   * carrying the subject claims of a token issued for `user`, preceded by any
   * claims that are not `id` claims and followed by any claims at all, resolves to `user.id`.
   */
  lemma GetUserIdOfIssued(user: User, now: int, config: Config, before: seq<Claim>, after: seq<Claim>)
    requires config.signingKeyUsable
    requires NoIdClaim(before)
    ensures GetUserId(before + CreateJwt(user, now, config).value.subject + after) == user.id
  {
    var subject := CreateJwt(user, now, config).value.subject;
    var principal := before + subject + after;
    var v := ToDecimal(user.id);
    assert subject == [Claim(IdClaim, v), Claim(NameClaim, Coalesce(user.username, UnknownName))];
    assert principal[|before|] == Claim(IdClaim, v);
    forall j | 0 <= j < |before|
      ensures principal[j].kind != IdClaim
    {
      assert principal[j] == before[j];
    }
    assert FindFirst(principal, IdClaim) == Some(v);
    ParseToDecimal(user.id);
  }

  /** A request presenting a token issued for `user` is handled on behalf of `user.id`. */
  lemma GetUserIdOfPrincipal(user: User, now: int, config: Config)
    requires config.signingKeyUsable
    ensures GetUserId(Principal(CreateJwt(user, now, config).value)) == user.id
  {
    var t := CreateJwt(user, now, config).value;
    var p := Principal(t);
    assert p == [] + t.subject + p[|t.subject|..];
    GetUserIdOfIssued(user, now, config, [], p[|t.subject|..]);
  }

  /** Tokens issued for users with different ids carry different `id` claims. */
  lemma IssuedIdsDistinct(a: User, b: User, now: int, later: int, config: Config)
    requires config.signingKeyUsable && a.id != b.id
    ensures FindFirst(CreateJwt(a, now, config).value.subject, IdClaim)
         != FindFirst(CreateJwt(b, later, config).value.subject, IdClaim)
  {
    if ToDecimal(a.id) == ToDecimal(b.id) {
      ToDecimalInjective(a.id, b.id);
    }
  }
}
