/** The user table and the logged-in session (simple_auth.py).  Password
    hashing (SHA-256) is an uninterpreted function handed to the table, the
    JSON file behind it is left to the caller, and timestamps are the text
    `strftime` would produce, passed in. */
module SimpleAuth {
  import opened Values

  /** One account.  `isActive` is None for a stored entry without the
      flag, which counts as active. */
  datatype User = User(
    userId: int,
    username: string,
    password: string,
    role: string,
    fullName: string,
    email: string,
    isActive: Option<bool>,
    dateCreated: string,
    lastLogin: Option<string>)

  predicate Active(u: User) {
    u.isActive.GetOr(true)
  }

  /** `ROLE_LABELS.get(role, role)`. */
  function DisplayRole(role: string): (shown: string)
    ensures role != "admin" && role != "user" ==> shown == role
  {
    if role == "admin" then "System Administrator"
    else if role == "user" then "Regular User"
    else role
  }

  /** The account created when no stored table can be read. */
  function DefaultAdmin(hash: string -> string, now: string): (u: User)
    ensures u.username == "admin" && u.role == "admin" && Active(u) && u.password == hash("admin")
  {
    User(1, "admin", hash("admin"), "admin", DisplayRole("admin"), "admin@canteen.com", Some(true), now, None)
  }

  /** No two accounts share a username. */
  predicate UniqueUsernames(users: seq<User>) {
    forall i, j :: 0 <= i < j < |users| ==> users[i].username != users[j].username
  }

  /** The position of the first active account with that username: the
      only one a login looks at. */
  function FirstActiveUser(users: seq<User>, username: string): (k: Option<nat>)
    ensures k.Some? ==> k.value < |users| && users[k.value].username == username && Active(users[k.value])
    ensures k.Some? ==> forall j :: 0 <= j < k.value ==> !(users[j].username == username && Active(users[j]))
    ensures k.None? ==> forall j :: 0 <= j < |users| ==> !(users[j].username == username && Active(users[j]))
  {
    FirstWhere(users, (u: User) => u.username == username && Active(u))
  }

  lemma FirstActiveUserAt(users: seq<User>, username: string, i: int)
    requires 0 <= i < |users| && users[i].username == username && Active(users[i])
    requires forall j :: 0 <= j < i ==> !(users[j].username == username && Active(users[j]))
    ensures FirstActiveUser(users, username) == Some(i)
  {
  }

  datatype LoginOutcome = LoggedIn(displayRole: string) | MissingCredentials | InvalidPassword | UnknownUser

  /** What a login attempt decides, given the hash of the password typed:
      the position of the account it logs into, or why it fails. */
  function LoginVerdict(users: seq<User>, username: string, password: string, passwordHash: string): Result<nat, LoginOutcome>
  {
    if username == "" || password == "" then Failure(MissingCredentials)
    else match FirstActiveUser(users, username)
         case None => Failure(UnknownUser)
         case Some(k) => if users[k].password == passwordHash then Success(k) else Failure(InvalidPassword)
  }

  /** An account that is not the first active one of its username can
      never be logged into, whatever its password. */
  lemma ShadowedAccountUnreachable(users: seq<User>, username: string, password: string, passwordHash: string, i: int)
    requires 0 <= i < |users| && users[i].username == username
    requires exists j :: 0 <= j < i && users[j].username == username && Active(users[j])
    ensures LoginVerdict(users, username, password, passwordHash) != Success(i)
  {
  }

  /** Appending an account under a new username changes no login verdict
      for the names already present. */
  lemma AppendKeepsLogins(users: seq<User>, u: User, username: string, password: string, passwordHash: string)
    requires username != u.username
    ensures LoginVerdict(users + [u], username, password, passwordHash) == LoginVerdict(users, username, password, passwordHash)
  {
    FirstActiveUserAppend(users, u, username);
  }

  lemma {:induction false} FirstActiveUserAppend(users: seq<User>, u: User, username: string)
    requires username != u.username
    ensures FirstActiveUser(users + [u], username) == FirstActiveUser(users, username)
  {
    if users != [] {
      assert (users + [u])[1..] == users[1..] + [u];
      FirstActiveUserAppend(users[1..], u, username);
    } else {
      assert ([] + [u])[1..] == [];
    }
  }

  datatype AddUserOutcome = Added(displayRole: string) | NotAdmin | MissingFields | UsernameTaken

  /** The account `add_user` creates. */
  function NewUser(userId: int, username: string, passwordHash: string, role: string, fullName: string,
                   email: string, now: string): (u: User)
    ensures Active(u) && u.lastLogin.None? && u.userId == userId && u.username == username
  {
    User(userId, username, passwordHash, role, fullName, email, Some(true), now, None)
  }

  /** The account table and the session of whoever is logged in. */
  class Auth {
    var users: seq<User>
    var currentUser: Option<User>
    const hash: string -> string

    /** Start from the stored table, or with only the default
        administrator when there is none; nobody is logged in. */
    constructor(loaded: Option<seq<User>>, hash: string -> string, now: string)
      ensures this.hash == hash
      ensures currentUser.None?
      ensures loaded.Some? ==> users == loaded.value
      ensures loaded.None? ==> users == [DefaultAdmin(hash, now)]
    {
      this.hash := hash;
      currentUser := None;
      if loaded.Some? {
        users := loaded.value;
      } else {
        users := [DefaultAdmin(hash, now)];
      }
    }

    /** `login`: the first active account with the username decides; a
        correct password stamps its last login and makes it the current
        user, anything else changes nothing. */
    method Login(username: string, password: string, now: string) returns (outcome: LoginOutcome)
      modifies this
      ensures match LoginVerdict(old(users), username, password, hash(password))
        case Failure(why) =>
          outcome == why && users == old(users) && currentUser == old(currentUser)
        case Success(k) =>
          && users == old(users)[k := old(users)[k].(lastLogin := Some(now))]
          && currentUser == Some(users[k])
          && outcome == LoggedIn(DisplayRole(users[k].role))
          && (IsAdmin() <==> old(users)[k].role == "admin")
    {
      if username == "" || password == "" {
        return MissingCredentials;
      }
      var i := 0;
      while i < |users|
        invariant 0 <= i <= |users|
        invariant users == old(users) && currentUser == old(currentUser)
        invariant forall j :: 0 <= j < i ==> !(users[j].username == username && Active(users[j]))
      {
        if users[i].username == username && Active(users[i]) {
          FirstActiveUserAt(users, username, i);
          if users[i].password == hash(password) {
            users := users[i := users[i].(lastLogin := Some(now))];
            currentUser := Some(users[i]);
            return LoggedIn(DisplayRole(users[i].role));
          } else {
            return InvalidPassword;
          }
        }
        i := i + 1;
      }
      return UnknownUser;
    }

    /** `logout`. */
    method Logout()
      modifies this
      ensures currentUser.None? && users == old(users)
      ensures !IsAdmin() && GetAllUsers() == []
    {
      currentUser := None;
    }

    /** `get_current_user`. */
    function GetCurrentUser(): Option<User>
      reads this
    {
      currentUser
    }

    /** `is_admin`: somebody is logged in and the role is exactly "admin". */
    predicate IsAdmin()
      reads this
    {
      currentUser.Some? && currentUser.value.role == "admin"
    }

    /** `add_user`: only an administrator may add an account, every field
        but the e-mail must be given, and the username must be new; the
        account is appended with the next id, active and never logged in. */
    method AddUser(username: string, password: string, role: string, fullName: string, email: string, now: string)
      returns (outcome: AddUserOutcome)
      modifies this
      ensures currentUser == old(currentUser)
      ensures !IsAdmin() ==> outcome == NotAdmin
      ensures IsAdmin() && (username == "" || password == "" || role == "" || fullName == "") ==> outcome == MissingFields
      ensures (IsAdmin() && username != "" && password != "" && role != "" && fullName != ""
               && exists u :: u in old(users) && u.username == username) ==> outcome == UsernameTaken
      ensures outcome.Added? <==>
        && IsAdmin()
        && username != "" && password != "" && role != "" && fullName != ""
        && forall u :: u in old(users) ==> u.username != username
      ensures outcome.Added? ==>
        users == old(users) + [NewUser(|old(users)| + 1, username, hash(password), role, fullName, email, now)]
        && outcome == Added(DisplayRole(role))
      ensures !outcome.Added? ==> users == old(users)
      ensures UniqueUsernames(old(users)) ==> UniqueUsernames(users)
    {
      if currentUser.None? || currentUser.value.role != "admin" {
        return NotAdmin;
      }
      if username == "" || password == "" || role == "" || fullName == "" {
        return MissingFields;
      }
      var i := 0;
      while i < |users|
        invariant 0 <= i <= |users|
        invariant users == old(users)
        invariant forall j :: 0 <= j < i ==> users[j].username != username
      {
        if users[i].username == username {
          return UsernameTaken;
        }
        i := i + 1;
      }
      var u := NewUser(|users| + 1, username, hash(password), role, fullName, email, now);
      users := users + [u];
      return Added(DisplayRole(role));
    }

    /** `get_all_users`: the whole table for an administrator, nothing for
        anybody else. */
    function GetAllUsers(): (r: seq<User>)
      reads this
      ensures !IsAdmin() ==> r == []
      ensures IsAdmin() ==> r == users
    {
      if IsAdmin() then users else []
    }
  }

  /** A freshly added account can log in with the password it was given. */
  lemma NewUserCanLogIn(users: seq<User>, username: string, password: string, passwordHash: string,
                        role: string, fullName: string, email: string, now: string)
    requires username != "" && password != ""
    requires forall u :: u in users ==> u.username != username
    ensures var added := users + [NewUser(|users| + 1, username, passwordHash, role, fullName, email, now)];
      LoginVerdict(added, username, password, passwordHash) == Success(|users|)
  {
    var added := users + [NewUser(|users| + 1, username, passwordHash, role, fullName, email, now)];
    assert forall j :: 0 <= j < |users| ==> added[j] == users[j];
    FirstActiveUserAt(added, username, |users|);
  }
}
