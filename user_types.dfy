/** User shapes shared by client and server. */
module UserTypes {
  import opened Wrappers

  /** A user as other users may see them: no password, no database id. */
  datatype SafeUserInfo = SafeUserInfo(username: string, display: string, createdAt: int)

  /** The credentials every authenticated request carries. */
  datatype UserAuth = UserAuth(username: string, password: string)

  /** A partial update of a user: only the fields present are to be written. */
  datatype UserUpdate = UserUpdate(display: Option<string>, password: Option<string>)
}
