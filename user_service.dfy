/** Signup, authentication, lookup and partial update of users. */
module UserService {
  import opened Wrappers
  import opened UserTypes
  import opened Store

  /** Usernames that would collide with routes of the user API. */
  const DisallowedUsernames: set<string> := {"login", "signup", "list"}

  /** The stored user without the password and id. */
  function ToSafe(d: UserDoc): SafeUserInfo {
    SafeUserInfo(d.username, d.display, d.createdAt)
  }

  /** A username/password pair is accepted iff the user exists and the password is the stored one. */
  function CheckAuth(users: map<string, UserDoc>, auth: UserAuth): (r: Option<UserWithId>)
    ensures r.Some? <==> auth.username in users && users[auth.username].password == auth.password
    ensures r.Some? ==> r.value == UserWithId(users[auth.username].id, auth.username)
  {
    if auth.username !in users then None
    else
      var user := users[auth.username];
      if auth.password != user.password then None
      else Some(UserWithId(user.id, auth.username))
  }

  /** An unknown user and a wrong password fail in exactly the same way. */
  lemma UnknownUserLikeWrongPassword(users: map<string, UserDoc>, unknown: UserAuth, wrong: UserAuth)
    requires unknown.username !in users
    requires wrong.username in users && users[wrong.username].password != wrong.password
    ensures CheckAuth(users, unknown) == CheckAuth(users, wrong) == None
  {
  }

  /** `checkAuth`, but an error instead of null. */
  function EnforceAuth(users: map<string, UserDoc>, auth: UserAuth): (r: Result<UserWithId>)
    ensures r.Failure? <==> CheckAuth(users, auth).None?
    ensures r.Failure? ==> r.error == "Invalid auth"
    ensures r.Success? ==> CheckAuth(users, auth) == Some(r.value)
  {
    match CheckAuth(users, auth)
    case None => Failure("Invalid auth")
    case Some(u) => Success(u)
  }

  function GetUserByUsername(users: map<string, UserDoc>, username: string): (r: Option<SafeUserInfo>)
    ensures r.Some? <==> username in users
    ensures r.Some? ==> r.value == ToSafe(users[username])
  {
    if username in users then Some(ToSafe(users[username])) else None
  }

  /**
   * Registers a user whose display name starts out as the username. Reserved
   * usernames and taken usernames are refused and nothing is stored.
   */
  method CreateUser(db: Database, username: string, password: string, createdAt: int) returns (r: Result<SafeUserInfo>)
    requires db.Valid()
    modifies db`users, db`nextId
    ensures db.Valid()
    ensures username in DisallowedUsernames ==>
      r == Failure("That is not a permitted username") && db.users == old(db.users)
    ensures username !in DisallowedUsernames && username in old(db.users) ==>
      r == Failure("User already exists") && db.users == old(db.users)
    ensures username !in DisallowedUsernames && username !in old(db.users) ==>
      && db.users == old(db.users)[username := UserDoc(old(db.nextId), username, username, password, createdAt)]
      && r == Success(SafeUserInfo(username, username, createdAt))
      && CheckAuth(db.users, UserAuth(username, password)) == Some(UserWithId(old(db.nextId), username))
  {
    if username in DisallowedUsernames {
      return Failure("That is not a permitted username");
    }
    if username in db.users {
      // the unique index on usernames rejects the insert
      return Failure("User already exists");
    }
    var id := db.FreshId();
    var user := UserDoc(id, username, username, password, createdAt);
    db.users := db.users[username := user];
    r := Success(ToSafe(user));
  }

  /**
   * Looks every username up, in the order given and keeping duplicates; one
   * unknown name fails the whole request.
   */
  method GetUsersByUsername(db: Database, usernames: seq<string>) returns (r: Result<seq<SafeUserInfo>>)
    ensures r.Success? <==> forall i :: 0 <= i < |usernames| ==> usernames[i] in db.users
    ensures r.Failure? ==> r.error == "No such username"
    ensures r.Success? ==> |r.value| == |usernames|
    ensures r.Success? ==> forall i :: 0 <= i < |usernames| ==> r.value[i] == ToSafe(db.users[usernames[i]])
  {
    var found: seq<SafeUserInfo> := [];
    for i := 0 to |usernames|
      invariant |found| == i
      invariant forall j :: 0 <= j < i ==> usernames[j] in db.users && found[j] == ToSafe(db.users[usernames[j]])
    {
      var user := GetUserByUsername(db.users, usernames[i]);
      if user.None? {
        return Failure("No such username");
      }
      found := found + [user.value];
    }
    r := Success(found);
  }

  function ApplyUpdate(d: UserDoc, u: UserUpdate): (r: UserDoc)
    ensures r.id == d.id && r.username == d.username && r.createdAt == d.createdAt
    ensures r.display == (if u.display.Some? then u.display.value else d.display)
    ensures r.password == (if u.password.Some? then u.password.value else d.password)
  {
    var d1 := if u.display.Some? then d.(display := u.display.value) else d;
    if u.password.Some? then d1.(password := u.password.value) else d1
  }

  /**
   * Writes the supplied fields of one user; other fields and other users keep
   * their values. An unknown username is an error.
   */
  method UpdateUser(db: Database, username: string, request: UserUpdate) returns (r: Result<SafeUserInfo>)
    requires db.Valid()
    modifies db`users
    ensures db.Valid()
    ensures username !in old(db.users) ==> r == Failure("Username does not exist") && db.users == old(db.users)
    ensures username in old(db.users) ==>
      && db.users == old(db.users)[username := ApplyUpdate(old(db.users)[username], request)]
      && r == Success(ToSafe(db.users[username]))
  {
    var updates := UserUpdate(None, None);
    if request.display.Some? {
      updates := updates.(display := request.display);
    }
    if request.password.Some? {
      updates := updates.(password := request.password);
    }
    if username !in db.users {
      return Failure("Username does not exist");
    }
    db.users := db.users[username := ApplyUpdate(db.users[username], updates)];
    r := Success(ToSafe(db.users[username]));
  }

  /** An empty update changes nothing. */
  lemma EmptyUpdateIsIdentity(d: UserDoc)
    ensures ApplyUpdate(d, UserUpdate(None, None)) == d
  {
  }

  /** After a password change the old password stops working and the new one works. */
  lemma PasswordChangeMovesAuth(users: map<string, UserDoc>, username: string, newPassword: string, display: Option<string>)
    requires username in users && users[username].password != newPassword
    ensures var users' := users[username := ApplyUpdate(users[username], UserUpdate(display, Some(newPassword)))];
      && CheckAuth(users', UserAuth(username, users[username].password)).None?
      && CheckAuth(users', UserAuth(username, newPassword)) == Some(UserWithId(users[username].id, username))
  {
  }

  /** Updating one user leaves every other user's login untouched. */
  lemma UpdateKeepsOtherLogins(users: map<string, UserDoc>, username: string, u: UserUpdate, auth: UserAuth)
    requires username in users && auth.username != username
    ensures CheckAuth(users[username := ApplyUpdate(users[username], u)], auth) == CheckAuth(users, auth)
  {
  }
}
