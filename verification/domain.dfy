/** The records the stores hold, by value. Instants are whole seconds. */
module Domain {

  /** An account as the backend's user store and auth service see it
      (`ID`, `Name`, `Email`, `Password`); creation and modification
      timestamps are never set by this code and are left out. */
  datatype User = User(id: string, name: string, email: string, password: string)

  /** Profile data keyed by user id, as the metadata store uses it
      (`UserId`, `Name`, `ImageURL`). */
  datatype UserMetadata = UserMetadata(userId: string, name: string, imageUrl: string)

  /** A server-held session of the cookie-based iteration. */
  datatype Session = Session(id: string, userId: string, expiresAt: int)

  /** The claims of an access token. */
  datatype AccessToken = AccessToken(userId: string, expiresAt: int)

  /** A server-held refresh token. */
  datatype RefreshToken = RefreshToken(tokenId: string, userId: string, expiresAt: int)
}
