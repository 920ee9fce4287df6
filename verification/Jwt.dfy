/**
 The token service: signing, verification, revocation and secret rotation.

 Cryptography is symbolic.  Secrets are numbered in the order they are generated, so a rotation makes the
 next number; a token carries the number of the secret that signed it and verifies under no other;
 hashing a token is injective.  The clock and the decoder's expiry leeway are parameters.
 */
module Jwt {
  import opened Wrappers

  const TOKEN_EXPIRY: nat := 24 * 60 * 60
  const JWT_ISSUER := "veryagent"
  const JWT_AUDIENCE := "veryagent-webui"

  datatype Claims = Claims(userId: string, username: string, iat: nat, exp: nat, iss: string, aud: string)

  // `Opaque` is any text that is not a well-formed signed token.
  datatype Token = Signed(secret: nat, claims: Claims) | Opaque(text: string)

  datatype Hash = TokenHash(token: Token)

  datatype AuthError = TokenBlacklisted | TokenExpired | TokenInvalid

  predicate Addressed(claims: Claims) {
    claims.iss == JWT_ISSUER && claims.aud == JWT_AUDIENCE
  }

  // Signature, issuer and audience are right under `secret`; expiry apart, the decoder accepts the token.
  predicate Genuine(token: Token, secret: nat) {
    token.Signed? && token.secret == secret && Addressed(token.claims)
  }

  // The decoder of the JWT library: signature first, then expiry, then issuer and audience.
  function Decode(token: Token, secret: nat, now: nat, leeway: nat): (r: Result<Claims, AuthError>)
    ensures r.Ok? <==>
            token.Signed? && token.secret == secret && token.claims.iss == "veryagent" &&
            token.claims.aud == "veryagent-webui" && now <= token.claims.exp + leeway
    ensures r.Ok? ==> r.value == token.claims
  {
    if !token.Signed? || token.secret != secret then Err(TokenInvalid)
    else if token.claims.exp + leeway < now then Err(TokenExpired)
    else if !Addressed(token.claims) then Err(TokenInvalid)
    else Ok(token.claims)
  }

  // The same decoder with expiry checking off.
  function ExtractExpiry(token: Token, secret: nat): (r: Option<nat>)
    ensures r.Some? <==> Decode(token, secret, 0, 0).Ok?
    ensures r.Some? ==> Decode(token, secret, r.value, 0).Ok? && Decode(token, secret, r.value + 1, 0).Err?
  {
    if token.Signed? && token.secret == secret && Addressed(token.claims) then Some(token.claims.exp) else None
  }

  /**
   The two decoders agree: the expiry extracted is the last second at which the checking decoder accepts the token, give
   or take the leeway, and none is extracted exactly from tokens it never accepts.
   */
  lemma ExtractedExpiryIsTheLastSecond(token: Token, secret: nat, e: nat)
    ensures ExtractExpiry(token, secret) == Some(e) <==>
            forall now: nat, leeway: nat :: Decode(token, secret, now, leeway).Ok? <==> now <= e + leeway
    ensures ExtractExpiry(token, secret) == None <==>
            forall now: nat, leeway: nat :: Decode(token, secret, now, leeway).Err?
  {
    assert Decode(token, secret, e, 0).Ok? && Decode(token, secret, e + 1, 0).Err? ==>
           ExtractExpiry(token, secret) == Some(e);
  }

  function NewClaims(userId: string, username: string, now: nat): Claims {
    Claims(userId, username, now, now + TOKEN_EXPIRY, JWT_ISSUER, JWT_AUDIENCE)
  }

  // The expiry stored with a revoked token; a token that does not decode is kept for a full lifetime.
  function RecordedExpiry(extracted: Option<nat>, now: nat): nat {
    if extracted.Some? then extracted.value else now + TOKEN_EXPIRY
  }

  /**
   A token says whom it was signed for, when, and that it lasts a day; under the secret that signed it, and no other, it
   decodes to just that until the day and the leeway are over.
   */
  lemma SignedTokenReadsBack(secret: nat, userId: string, username: string, signed: nat, other: nat, now: nat,
      leeway: nat)
    ensures var r := Decode(Signed(secret, NewClaims(userId, username, signed)), other, now, leeway);
            (r.Ok? <==> other == secret && now <= signed + 86400 + leeway) &&
            (r.Ok? ==>
               r.value.userId == userId && r.value.username == username && r.value.iat == signed &&
               r.value.exp == signed + 86400)
  {
  }

  class JwtService {
    var secret: nat
    var blacklist: map<Hash, nat>

    constructor (secret: nat)
      ensures this.secret == secret && blacklist == map[]
    {
      this.secret := secret;
      blacklist := map[];
    }

    method Sign(userId: string, username: string, now: nat) returns (token: Token)
      ensures token.Signed? && token.secret == secret
      ensures token.claims.userId == userId && token.claims.username == username
      ensures token.claims.iat == now && token.claims.exp == now + 86400
      ensures token.claims.iss == "veryagent" && token.claims.aud == "veryagent-webui"
    {
      var exp := now + TOKEN_EXPIRY;
      var claims := Claims(userId, username, now, exp, JWT_ISSUER, JWT_AUDIENCE);
      token := Signed(secret, claims);
    }

    method Verify(token: Token, now: nat, leeway: nat) returns (r: Result<Claims, AuthError>)
      ensures r == Err(TokenBlacklisted) <==> TokenHash(token) in blacklist
      ensures r.Ok? <==>
              TokenHash(token) !in blacklist && token.Signed? && token.secret == secret &&
              token.claims.iss == "veryagent" && token.claims.aud == "veryagent-webui" &&
                now <= token.claims.exp + leeway
      ensures r.Ok? ==> r.value == token.claims
      ensures r == Err(TokenExpired) <==>
              TokenHash(token) !in blacklist && token.Signed? && token.secret == secret &&
                token.claims.exp + leeway < now
    {
      var hash := TokenHash(token);
      if hash in blacklist {
        return Err(TokenBlacklisted);
      }
      r := Decode(token, secret, now, leeway);
    }

    method BlacklistToken(token: Token, now: nat)
      modifies this`blacklist
      ensures blacklist == old(blacklist)[TokenHash(token) :=
                             if Genuine(token, secret) then token.claims.exp else now + TOKEN_EXPIRY]
    {
      var hash := TokenHash(token);
      var extracted := ExtractExpiry(token, secret);
      blacklist := blacklist[hash := RecordedExpiry(extracted, now)];
    }

    method RotateSecret() returns (newSecret: nat)
      modifies this
      ensures newSecret == secret == old(secret) + 1 && blacklist == map[]
    {
      newSecret := secret + 1;
      secret := newSecret;
      blacklist := map[];
    }

    method CleanupBlacklist(now: nat)
      modifies this`blacklist
      ensures blacklist.Keys == set h | h in old(blacklist) && old(blacklist)[h] > now
      ensures forall h :: h in blacklist ==> blacklist[h] == old(blacklist)[h]
    {
      blacklist := map h | h in blacklist && blacklist[h] > now :: blacklist[h];
    }
  }

  /**
   Signing and verifying with one service: a token that has not been revoked in between verifies to exactly the user it
   was signed for, from the start and until a day and the leeway have passed.
   */
  method SignThenVerify(service: JwtService, userId: string, username: string, signed: nat, now: nat, leeway: nat)
    returns (token: Token, r: Result<Claims, AuthError>)
    ensures r.Ok? <==> TokenHash(token) !in service.blacklist && now <= signed + 86400 + leeway
    ensures r.Ok? ==>
              r.value.userId == userId && r.value.username == username && r.value.iat == signed &&
              r.value.exp == signed + 86400
  {
    token := service.Sign(userId, username, signed);
    r := service.Verify(token, now, leeway);
  }
}
