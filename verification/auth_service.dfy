/** The auth service: sign-up, log-in, log-out, access-token decoding and
    access-token regeneration over a user store and two token stores.
    bcrypt is a pair of functions the service is built with, and the wall
    clock is an instant `now`, in seconds, passed to each operation. */
module Ports {
  import opened Users
  import opened Domain
  import opened Slices
  import opened Strconv
  import opened NativeUserStore
  import opened TokenStores

  const SignUpOp: string := "ports.AuthService.SignUp"
  const LogInOp: string := "ports.AuthService.Login"
  const LogOutOp: string := "ports.AuthService.LogOut"
  const DecodeOp: string := "ports.AuthService.DecodeAccessToken"
  const RegenerateOp: string := "ports.AuthService.RegenerateAccessToken"

  function ConflictMessage(email: string): string
  {
    "user with email (" + email + ") exists"
  }

  function LogInMessage(email: string): string
  {
    "email(" + email + ") or password incorrect"
  }

  /** The verdict on a decoded access token at instant `now`: a decoding
      failure is passed on, a missing token is EINVALID, a token whose expiry
      lies strictly before `now` is EEXPIRED, and any other token is returned
      as it is — so a token expiring exactly at `now` is still accepted. */
  function AccessVerdict(decoded: Result<Option<AccessToken>>, now: int): (r: Result<AccessToken>)
    ensures decoded.Err? ==> r == Err(Wrap(DecodeOp, decoded.error)) && CodeOf(r.error) == CodeOf(decoded.error)
    ensures decoded == Ok(None) ==> r.Err? && CodeOf(r.error) == EINVALID
    ensures decoded.Ok? && decoded.value.Some? ==>
      && (r.Ok? <==> now <= decoded.value.value.expiresAt)
      && (r.Ok? ==> r.value == decoded.value.value)
      && (r.Err? ==> CodeOf(r.error) == EEXPIRED)
  {
    match decoded
    case Err(e) => Err(Wrap(DecodeOp, e))
    case Ok(None) => Err(Error(DecodeOp, Some(EINVALID), "invalid access token", None))
    case Ok(Some(token)) =>
      if token.expiresAt < now then Err(Error(DecodeOp, Some(EEXPIRED), "access token expired", None))
      else Ok(token)
  }

  class AuthService {
    const userStore: UserStore
    const refreshTokenStore: RefreshTokenStore
    const accessTokenStore: AccessTokenStore
    /** bcrypt's hashing: `None` when it fails. */
    const hashPassword: string -> Option<string>
    /** bcrypt's comparison of a password with a stored hash. */
    const verifyPassword: (string, string) -> bool

    ghost predicate Valid()
      reads userStore, refreshTokenStore, accessTokenStore
    {
      userStore.Valid() && refreshTokenStore.Valid() && accessTokenStore.Valid()
    }

    constructor (userStore: UserStore, accessTokenStore: AccessTokenStore, refreshTokenStore: RefreshTokenStore,
                 hashPassword: string -> Option<string>, verifyPassword: (string, string) -> bool)
      requires userStore.Valid() && refreshTokenStore.Valid() && accessTokenStore.Valid()
      ensures Valid()
      ensures this.userStore == userStore && this.refreshTokenStore == refreshTokenStore
      ensures this.accessTokenStore == accessTokenStore
      ensures this.hashPassword == hashPassword && this.verifyPassword == verifyPassword
    {
      this.userStore := userStore;
      this.refreshTokenStore := refreshTokenStore;
      this.accessTokenStore := accessTokenStore;
      this.hashPassword := hashPassword;
      this.verifyPassword := verifyPassword;
    }

    /** Rejects an email already in the store with ECONFLICT and leaves the
        store alone; otherwise stores the user with its password replaced by
        its hash and returns the stored record. Sign-ups keep stored emails
        pairwise distinct. */
    method SignUp(user: User) returns (r: Result<User>)
      requires Valid()
      modifies userStore
      ensures Valid()
      ensures FirstIndex(old(userStore.users), Email, user.email) != -1 ==>
        && r == Err(Error(SignUpOp, Some(ECONFLICT), ConflictMessage(user.email), None))
        && CodeOf(r.error) == ECONFLICT
        && unchanged(userStore)
      ensures FirstIndex(old(userStore.users), Email, user.email) == -1 && hashPassword(user.password).None? ==>
        && r == Err(Error(SignUpOp, Some(EINTERNAL), "", None))
        && unchanged(userStore)
      ensures FirstIndex(old(userStore.users), Email, user.email) == -1 && hashPassword(user.password).Some? ==>
        && r.Ok?
        && r.value == user.(id := Itoa(userStore.id), password := hashPassword(user.password).value)
        && userStore.id == old(userStore.id) + 1
        && userStore.users == old(userStore.users) + [r.value]
      ensures EmailsUnique(old(userStore.users)) ==> EmailsUnique(userStore.users)
    {
      CheckAgreesWithFind(userStore.users, user.email);
      var exists_ := userStore.CheckByEmail(user.email);
      if exists_ {
        return Err(Error(SignUpOp, Some(ECONFLICT), ConflictMessage(user.email), None));
      }
      var hashed := hashPassword(user.password);
      if hashed.None? {
        return Err(Error(SignUpOp, Some(EINTERNAL), "", None));
      }
      var withHash := user.(password := hashed.value);
      if EmailsUnique(userStore.users) {
        AppendFreshKeepsDistinct(userStore.users, Email, withHash.(id := Itoa(userStore.id + 1)));
      }
      var stored := userStore.Insert(withHash);
      return Ok(stored);
    }

    /** Looks the user up by email and checks the password; only then mints
        one refresh token and one access token, both for the stored user's
        identifier, and returns their encodings. An unknown email fails with
        the store's ENOTFOUND and a wrong password with ECONFLICT; neither
        mints anything. */
    method LogIn(email: string, password: string, now: int)
      returns (encodedAccessToken: string, encodedRefreshToken: string, err: Option<Error>)
      requires Valid()
      modifies refreshTokenStore, accessTokenStore
      ensures Valid()
      ensures var i := FirstIndex(userStore.users, Email, email);
        i == -1 ==>
          && err == Some(Error(LogInOp, None, LogInMessage(email), Some(UserNotFound("UserStore.FindByEmail"))))
          && CodeOf(err.value) == ENOTFOUND
          && encodedAccessToken == "" && encodedRefreshToken == ""
          && unchanged(refreshTokenStore, accessTokenStore)
      ensures var i := FirstIndex(userStore.users, Email, email);
        i >= 0 && !verifyPassword(password, userStore.users[i].password) ==>
          && err == Some(Error(LogInOp, Some(ECONFLICT), LogInMessage(email), Some(LibraryError)))
          && CodeOf(err.value) == ECONFLICT
          && encodedAccessToken == "" && encodedRefreshToken == ""
          && unchanged(refreshTokenStore, accessTokenStore)
      ensures var i := FirstIndex(userStore.users, Email, email);
        i >= 0 && verifyPassword(password, userStore.users[i].password) ==>
          && err == None
          && encodedRefreshToken !in old(refreshTokenStore.tokens)
          && refreshTokenStore.tokens == old(refreshTokenStore.tokens)[encodedRefreshToken :=
               RefreshToken(encodedRefreshToken, userStore.users[i].id, now + refreshTokenStore.lifetime)]
          && encodedAccessToken == accessTokenStore.sign(AccessToken(userStore.users[i].id, now + accessTokenStore.expiryDuration))
          && accessTokenStore.signed == old(accessTokenStore.signed)[encodedAccessToken :=
               AccessToken(userStore.users[i].id, now + accessTokenStore.expiryDuration)]
    {
      var found := userStore.FindByEmail(email);
      if found.Err? {
        return "", "", Some(Error(LogInOp, None, LogInMessage(email), Some(found.error)));
      }
      var storedUser := found.value;
      if !verifyPassword(password, storedUser.password) {
        return "", "", Some(Error(LogInOp, Some(ECONFLICT), LogInMessage(email), Some(LibraryError)));
      }
      var refreshToken := refreshTokenStore.Create(storedUser.id, now);
      encodedRefreshToken := refreshTokenStore.Encode(refreshToken);
      var accessToken := accessTokenStore.Create(storedUser.id, now);
      encodedAccessToken := accessTokenStore.Encode(accessToken);
      err := None;
    }

    /** Revokes a refresh token by delegating to the refresh store. */
    method LogOut(encodedRefreshToken: string) returns (err: Option<Error>)
      requires Valid()
      modifies refreshTokenStore
      ensures Valid()
      ensures encodedRefreshToken in old(refreshTokenStore.tokens) ==>
        err == None && refreshTokenStore.tokens == old(refreshTokenStore.tokens) - {encodedRefreshToken}
      ensures encodedRefreshToken !in old(refreshTokenStore.tokens) ==>
        && err == Some(Wrap(LogOutOp, RefreshNotFound))
        && CodeOf(err.value) == ENOTFOUND
        && refreshTokenStore.tokens == old(refreshTokenStore.tokens)
      ensures encodedRefreshToken !in refreshTokenStore.tokens
    {
      var e := refreshTokenStore.Delete(encodedRefreshToken);
      if e.Some? {
        WrapKeepsCode(LogOutOp, e.value);
        return Some(Wrap(LogOutOp, e.value));
      }
      return None;
    }

    /** Decodes a presented access token. The clock is read twice: the
        library's parse reads it at `parseNow`, and the service's own expiry
        check reads it again at `now`, no earlier. It succeeds exactly for an
        encoding this service signed whose expiry is not before `now`, and
        then returns the signed claims. A token the parse finds expired
        reads as EINTERNAL; EEXPIRED is read for a token that passed the
        parse but is expired at `now`: one whose expiry is 0, the library's
        "no expiry", or one whose expiry second ended between the two reads. */
    method DecodeAccessToken(encodedAccessToken: string, parseNow: int, now: int) returns (r: Result<AccessToken>)
      requires parseNow <= now
      ensures r == AccessVerdict(accessTokenStore.VerifyAndDecode(encodedAccessToken, parseNow), now)
      ensures r.Ok? <==> encodedAccessToken in accessTokenStore.signed
                         && now <= accessTokenStore.signed[encodedAccessToken].expiresAt
      ensures r.Ok? ==> r.value == accessTokenStore.signed[encodedAccessToken]
      ensures r.Err? && CodeOf(r.error) == EEXPIRED <==>
        && encodedAccessToken in accessTokenStore.signed
        && var exp := accessTokenStore.signed[encodedAccessToken].expiresAt;
           exp < now && (exp == 0 || parseNow <= exp)
      ensures (encodedAccessToken in accessTokenStore.signed
               && ClaimsExpired(accessTokenStore.signed[encodedAccessToken], parseNow)) ==> CodeOf(r.error) == EINTERNAL
    {
      var decoded := accessTokenStore.VerifyAndDecode(encodedAccessToken, parseNow);
      r := AccessVerdict(decoded, now);
    }

    /** Mints a new access token from a presented refresh token without
        checking credentials again: an unknown or revoked refresh token fails
        with ENOTFOUND, an expired one with EINVALID, and neither mints
        anything; otherwise the new token is for the refresh token's user. */
    method RegenerateAccessToken(encodedRefreshToken: string, now: int)
      returns (encodedAccessToken: string, err: Option<Error>)
      requires Valid()
      modifies accessTokenStore
      ensures Valid()
      ensures var d := refreshTokenStore.VerifyAndDecode(encodedRefreshToken, now);
        d.Err? ==>
          && err == Some(Wrap(RegenerateOp, d.error))
          && CodeOf(err.value) == ENOTFOUND
          && encodedAccessToken == ""
          && unchanged(accessTokenStore)
      ensures var d := refreshTokenStore.VerifyAndDecode(encodedRefreshToken, now);
        d == Ok(None) ==>
          && err == Some(Error(RegenerateOp, Some(EINVALID), "", None))
          && encodedAccessToken == ""
          && unchanged(accessTokenStore)
      ensures var d := refreshTokenStore.VerifyAndDecode(encodedRefreshToken, now);
        d.Ok? && d.value.Some? ==>
          && err == None
          && d.value.value.userId == refreshTokenStore.tokens[encodedRefreshToken].userId
          && encodedAccessToken == accessTokenStore.sign(AccessToken(d.value.value.userId, now + accessTokenStore.expiryDuration))
          && accessTokenStore.signed == old(accessTokenStore.signed)[encodedAccessToken :=
               AccessToken(d.value.value.userId, now + accessTokenStore.expiryDuration)]
    {
      var decoded := refreshTokenStore.VerifyAndDecode(encodedRefreshToken, now);
      if decoded.Err? {
        return "", Some(Wrap(RegenerateOp, decoded.error));
      }
      if decoded.value.None? {
        return "", Some(Error(RegenerateOp, Some(EINVALID), "", None));
      }
      var accessToken := accessTokenStore.Create(decoded.value.value.userId, now);
      encodedAccessToken := accessTokenStore.Encode(accessToken);
      err := None;
    }
  }

  /** Sign-up walk-through: a first account is stored as user "1" with its
      password hashed, and a second sign-up with the same email conflicts. */
  method SignUpWalkthrough()
  {
    var users := new UserStore();
    var access := new AccessTokenStore(600, (t: AccessToken) => "jwt:" + t.userId);
    var refresh := new RefreshTokenStore(600);
    var auth := new AuthService(users, access, refresh,
                                p => Some("$2a$" + p), (p, h) => h == "$2a$" + p);

    assert Itoa(1) == "1";
    var first := auth.SignUp(User("", "Ann", "a@b.com", "password1"));
    assert first.Ok? && first.value.id == "1";
    assert first.value.password == "$2a$" + "password1";
    var second := auth.SignUp(User("", "Bob", "a@b.com", "secret"));
    assert CodeOf(second.error) == ECONFLICT;
    assert users.users == [first.value];
  }

  /** Log-in walk-through against a store holding one account: a wrong
      password conflicts, the right one yields tokens for that account, the
      access token is accepted until it expires and then fails in the
      library's parse (or, with expiry 0, as EEXPIRED), one parsed in its
      last second but checked a second later is EEXPIRED, one regenerated in the same
      second is the very same string, and a refresh token stops working once
      logged out. */
  method LogInWalkthrough(auth: AuthService, hash: string, now: int)
    requires auth.Valid()
    requires auth.userStore.users == [User("1", "Ann", "a@b.com", hash)]
    requires auth.verifyPassword("password1", hash) && !auth.verifyPassword("password2", hash)
    requires auth.accessTokenStore.expiryDuration == 600 && auth.refreshTokenStore.lifetime >= 0
    modifies auth.refreshTokenStore, auth.accessTokenStore
  {
    assert FirstIndex(auth.userStore.users, Email, "a@b.com") == 0;
    var _, _, wrong := auth.LogIn("a@b.com", "password2", now);
    assert CodeOf(wrong.value) == ECONFLICT;
    var accessToken, refreshToken, err := auth.LogIn("a@b.com", "password1", now);
    assert err == None;

    var claims := auth.DecodeAccessToken(accessToken, now, now);
    assert claims == Ok(AccessToken("1", now + 600));
    var late := auth.DecodeAccessToken(accessToken, now + 601, now + 601);
    var edge := auth.DecodeAccessToken(accessToken, now + 600, now + 601);
    assert CodeOf(edge.error) == EEXPIRED;
    assert now + 600 != 0 ==> CodeOf(late.error) == EINTERNAL;
    assert now + 600 == 0 ==> CodeOf(late.error) == EEXPIRED;

    var renewed, renewErr := auth.RegenerateAccessToken(refreshToken, now);
    assert renewErr == None && auth.accessTokenStore.signed[renewed].userId == "1";
    assert renewed == accessToken;
    var outErr := auth.LogOut(refreshToken);
    assert outErr == None;
    var replay, replayErr := auth.RegenerateAccessToken(refreshToken, now);
    assert CodeOf(replayErr.value) == ENOTFOUND;
  }
}
