/** The two token stores the auth service runs over, as maps from the opaque
    encoded form of a token to its claims. A refresh token is named by a
    fresh decimal serial, so a newly minted one is never already held; an
    access token's encoding is the signature of its claims. */
module TokenStores {
  import opened Users
  import opened Domain
  import opened Strconv

  /** The store's serial is ahead of every encoding it has handed out. */
  ghost predicate SerialAhead<V>(m: map<string, V>, serial: nat)
  {
    forall k :: k in m ==> DecimalValue(k) < serial
  }

  /** The encoding rendered from the serial is unused, and storing under it
      while bumping the serial keeps the serial ahead. */
  lemma SerialFresh<V>(m: map<string, V>, serial: nat, v: V)
    requires SerialAhead(m, serial)
    ensures Itoa(serial) !in m
    ensures SerialAhead(m[Itoa(serial) := v], serial + 1)
  {
    DecimalValueOfItoa(serial);
  }

  /** Refresh tokens: server-held, looked up by their encoding, revocable. */
  class RefreshTokenStore {
    const lifetime: int
    var tokens: map<string, RefreshToken>
    var serial: nat

    ghost predicate Valid()
      reads this
    {
      && SerialAhead(tokens, serial)
      && forall k :: k in tokens ==> tokens[k].tokenId == k
    }

    constructor (lifetime: int)
      ensures Valid() && this.lifetime == lifetime && tokens == map[]
    {
      this.lifetime := lifetime;
      tokens := map[];
      serial := 0;
    }

    /** Mints and stores a token for `userId` under a fresh identifier. */
    method Create(userId: string, now: int) returns (token: RefreshToken)
      requires Valid()
      modifies this
      ensures Valid()
      ensures token.tokenId !in old(tokens)
      ensures token == RefreshToken(token.tokenId, userId, now + lifetime)
      ensures tokens == old(tokens)[token.tokenId := token]
    {
      token := RefreshToken(Itoa(serial), userId, now + lifetime);
      SerialFresh(tokens, serial, token);
      tokens := tokens[token.tokenId := token];
      serial := serial + 1;
    }

    /** The opaque encoding of a token is its identifier, so the encoding of
        a held token is the key it is held under. */
    function Encode(token: RefreshToken): (encoded: string)
      reads this
      ensures Valid() && token in tokens.Values ==> encoded in tokens && tokens[encoded] == token
    {
      token.tokenId
    }

    /** Revokes the token with this encoding; ENOTFOUND when it is not held. */
    method Delete(encodedRefreshToken: string) returns (err: Option<Error>)
      requires Valid()
      modifies this
      ensures Valid() && serial == old(serial)
      ensures encodedRefreshToken in old(tokens) ==> err == None && tokens == old(tokens) - {encodedRefreshToken}
      ensures encodedRefreshToken !in old(tokens) ==> err == Some(RefreshNotFound) && tokens == old(tokens)
      ensures encodedRefreshToken !in tokens
    {
      if encodedRefreshToken in tokens {
        tokens := tokens - {encodedRefreshToken};
        err := None;
      } else {
        err := Some(RefreshNotFound);
      }
    }

    /** Decodes a presented refresh token at instant `now`: unknown or revoked
        encodings fail with ENOTFOUND, an expired token decodes to nothing. */
    function VerifyAndDecode(encodedRefreshToken: string, now: int): (r: Result<Option<RefreshToken>>)
      reads this
      ensures r.Err? <==> encodedRefreshToken !in tokens
      ensures r.Err? ==> CodeOf(r.error) == ENOTFOUND
      ensures r.Ok? && r.value.Some? <==> encodedRefreshToken in tokens && now <= tokens[encodedRefreshToken].expiresAt
      ensures r.Ok? && r.value.Some? ==> r.value.value == tokens[encodedRefreshToken]
    {
      if encodedRefreshToken !in tokens then Err(RefreshNotFound)
      else if tokens[encodedRefreshToken].expiresAt < now then Ok(None)
      else Ok(Some(tokens[encodedRefreshToken]))
    }
  }

  const RefreshNotFound: Error := Error("RefreshTokenStore", Some(ENOTFOUND), "invalid refresh token", None)

  /** The JWT library's check of the `exp` claim while parsing: a claim of
      0 means no expiry is set; otherwise the token has expired once `now`
      is past it. */
  predicate ClaimsExpired(token: AccessToken, now: int)
  {
    token.expiresAt != 0 && token.expiresAt < now
  }

  /** Access tokens as a signer sees them. `sign` is HS256 signing of the
      claims under the store's key: a deterministic function of the claims,
      so equal claims always give the same string. The map records every
      encoding this store has handed out, with the claims it signed. */
  class AccessTokenStore {
    const expiryDuration: int
    const sign: AccessToken -> string
    var signed: map<string, AccessToken>

    /** Every recorded encoding is the signature of its own claims. */
    ghost predicate Valid()
      reads this
    {
      forall k :: k in signed ==> sign(signed[k]) == k
    }

    constructor (expiryDuration: int, sign: AccessToken -> string)
      ensures Valid() && this.expiryDuration == expiryDuration && this.sign == sign && signed == map[]
    {
      this.expiryDuration := expiryDuration;
      this.sign := sign;
      signed := map[];
    }

    /** The claims of a token for `userId` that expires `expiryDuration`
        after `now`; nothing is stored until it is encoded. */
    function Create(userId: string, now: int): (token: AccessToken)
      ensures token.userId == userId
      ensures token.expiresAt - now == expiryDuration
    {
      AccessToken(userId, now + expiryDuration)
    }

    /** Signs `token`: the encoding depends on the claims alone, so signing
        equal claims twice hands out the same string. */
    method Encode(token: AccessToken) returns (encoded: string)
      requires Valid()
      modifies this
      ensures Valid()
      ensures encoded == sign(token)
      ensures signed == old(signed)[encoded := token]
    {
      encoded := sign(token);
      signed := signed[encoded := token];
    }

    /** The claims behind an encoding this store signed, parsed at instant
        `now`. Any other string, and a token the library finds expired, fail
        with an error of the signing library. */
    function VerifyAndDecode(encodedToken: string, now: int): (r: Result<Option<AccessToken>>)
      reads this
      ensures r.Ok? <==> encodedToken in signed && !ClaimsExpired(signed[encodedToken], now)
      ensures r.Ok? ==> r.value == Some(signed[encodedToken])
      ensures r.Err? ==> CodeOf(r.error) == EINTERNAL
    {
      if encodedToken !in signed || ClaimsExpired(signed[encodedToken], now) then
        Err(Wrap("jwt.AccessTokenStore.Verify", LibraryError))
      else Ok(Some(signed[encodedToken]))
    }
  }

  /** go-redis's reply to a command: an integer, or `redis.Nil` for a key
      that holds nothing. */
  datatype RedisReply = IntReply(n: nat) | NilReply

  /** DEL replies with the number of keys it removed, 0 for a missing key;
      it never replies `redis.Nil`. */
  function Del(tokens: map<string, RefreshToken>, key: string): RedisReply
  {
    IntReply(if key in tokens then 1 else 0)
  }

  const RevokeNotFound: Error := Error("redis.RefreshStore.Revoke", Some(ENOTFOUND), "invalid session TokenID", None)

  /** The Redis store's revoke as written: it reports ENOTFOUND only when DEL
      replies `redis.Nil`. */
  function RevokeAsWritten(tokens: map<string, RefreshToken>, key: string): (r: (map<string, RefreshToken>, Option<Error>))
    ensures r.0 == tokens - {key}
    ensures r.1.Some? <==> Del(tokens, key).NilReply?
  {
    match Del(tokens, key)
    case NilReply => (tokens - {key}, Some(RevokeNotFound))
    case IntReply(_) => (tokens - {key}, None)
  }

  /** Revoking a token that is not held succeeds as written: the ENOTFOUND
      branch is unreachable, where `RefreshTokenStore.Delete` fails. */
  lemma RevokeAsWrittenAcceptsUnknown(tokens: map<string, RefreshToken>, key: string)
    requires key !in tokens
    ensures RevokeAsWritten(tokens, key) == (tokens, None)
  {
    assert tokens - {key} == tokens;
  }
}
