/**
 * The user list of the exam application: the built-in accounts, the login
 * lookup of `handleLogin` and the checks of `handleRegister`.
 */
module Accounts {
  import opened Wrappers
  import opened JsText

  /** A user or result id. The built-in users carry numbers, everything made
      later (`generateId`, whose value is a number plus a string) carries
      strings, and the two never compare equal under `===`. */
  datatype Id = Num(n: int) | Str(s: string)

  /** The text an id turns into when it is written into a page, as the
      delete buttons do. */
  function IdKey(id: Id): string {
    match id
    case Num(n) => IntToString(n)
    case Str(s) => s
  }

  datatype Role = Admin | Student

  datatype User = User(id: Id, name: string, email: string, password: string, role: Role)

  /** The accounts the user list starts with. */
  const DefaultUsers: seq<User> := [
    User(Num(1), "Administrator", "adarshreddy532@gmail.com", "admin123", Admin),
    User(Num(2), "Adarsh Reddy", "rddadarsh@gmail.com", "123456", Student),
    User(Num(3), "Venkat Reddy", "reddavenkata979@gmail.com", "123456", Student)
  ]

  /** Whether a user's credentials are exactly these. */
  predicate Matches(u: User, email: string, password: string) {
    u.email == email && u.password == password
  }

  /** `users.find(u => u.email === email && u.password === password)`: the
      first user with both fields equal. */
  function FindByCredentials(users: seq<User>, email: string, password: string): (r: Option<nat>)
    ensures r.Some? ==> r.value < |users| && Matches(users[r.value], email, password)
    ensures r.Some? ==> forall k :: 0 <= k < r.value ==> !Matches(users[k], email, password)
    ensures r.None? ==> forall k :: 0 <= k < |users| ==> !Matches(users[k], email, password)
  {
    if |users| == 0 then None
    else if Matches(users[0], email, password) then Some(0)
    else match FindByCredentials(users[1..], email, password)
      case None => None
      case Some(k) => Some(k + 1)
  }

  /** The first user with this email, as the duplicate check of `handleRegister` looks it up. */
  function FindByEmail(users: seq<User>, email: string): (r: Option<nat>)
    ensures r.Some? ==> r.value < |users| && users[r.value].email == email
    ensures r.None? ==> forall k :: 0 <= k < |users| ==> users[k].email != email
  {
    if |users| == 0 then None
    else if users[0].email == email then Some(0)
    else match FindByEmail(users[1..], email)
      case None => None
      case Some(k) => Some(k + 1)
  }

  datatype LoginOutcome = InvalidInput | LoginFailed | LoggedIn(user: User)

  /** `handleLogin`: both fields are trimmed; an empty one is refused before
      any lookup; otherwise the first user whose email and password both equal
      the trimmed input is signed in. */
  function Login(users: seq<User>, email: string, password: string): (r: LoginOutcome)
    ensures r == InvalidInput <==> Trim(email) == [] || Trim(password) == []
    ensures r.LoggedIn? ==> r.user in users && Matches(r.user, Trim(email), Trim(password))
    ensures r == LoginFailed <==>
      Trim(email) != [] && Trim(password) != [] && forall u :: u in users ==> !Matches(u, Trim(email), Trim(password))
  {
    var e := Trim(email);
    var p := Trim(password);
    if e == [] || p == [] then InvalidInput
    else match FindByCredentials(users, e, p)
      case None => LoginFailed
      case Some(k) => LoggedIn(users[k])
  }

  datatype RegisterOutcome = MissingFields | DuplicateEmail | Registered(users: seq<User>)

  /** `handleRegister` on the user list: all three fields are trimmed and
      required; an email already present is refused; otherwise exactly one
      student is appended. `newId` is the id `generateId` produced. */
  function Register(users: seq<User>, name: string, email: string, password: string, newId: Id): (r: RegisterOutcome)
    ensures r == MissingFields <==> Trim(name) == [] || Trim(email) == [] || Trim(password) == []
    ensures r == DuplicateEmail <==>
      Trim(name) != [] && Trim(email) != [] && Trim(password) != [] && exists u :: u in users && u.email == Trim(email)
    ensures r.Registered? ==> r.users == users + [User(newId, Trim(name), Trim(email), Trim(password), Student)]
  {
    var n := Trim(name);
    var e := Trim(email);
    var p := Trim(password);
    if n == [] || e == [] || p == [] then MissingFields
    else if FindByEmail(users, e).Some? then DuplicateEmail
    else Registered(users + [User(newId, n, e, p, Student)])
  }

  /** Emails are unique in the list, which registration preserves. */
  predicate UniqueEmails(users: seq<User>) {
    forall i, j :: 0 <= i < j < |users| ==> users[i].email != users[j].email
  }

  lemma DefaultUsersUnique()
    ensures UniqueEmails(DefaultUsers)
  {
  }

  lemma RegisterKeepsUnique(users: seq<User>, name: string, email: string, password: string, newId: Id)
    requires UniqueEmails(users)
    ensures var r := Register(users, name, email, password, newId);
      r.Registered? ==> UniqueEmails(r.users)
  {
    var r := Register(users, name, email, password, newId);
    if r.Registered? {
      var e := Trim(email);
      assert FindByEmail(users, e).None?;
      assert r.users[|users|].email == e;
    }
  }

  /** A student who has just registered can sign in with what they typed. */
  lemma RegisteredCanLogin(users: seq<User>, name: string, email: string, password: string, newId: Id)
    requires Register(users, name, email, password, newId).Registered?
    ensures var us := Register(users, name, email, password, newId).users;
      Login(us, email, password) == LoggedIn(us[|us| - 1])
  {
    var us := Register(users, name, email, password, newId).users;
    var e := Trim(email);
    var p := Trim(password);
    TrimFixesTrimmed(e);
    TrimFixesTrimmed(p);
    var u := User(newId, Trim(name), e, p, Student);
    assert us == users + [u];
    FindAppended(users, u);
  }

  /** A user appended after every user with another email is the one the lookup finds. */
  lemma {:induction false} FindAppended(users: seq<User>, u: User)
    requires FindByEmail(users, u.email).None?
    ensures FindByCredentials(users + [u], u.email, u.password) == Some(|users|)
  {
    if users != [] {
      assert (users + [u])[1..] == users[1..] + [u];
      FindAppended(users[1..], u);
    }
  }

  /** A built-in account signs in with its own credentials and with no other password. */
  lemma DefaultLogin()
    ensures Login(DefaultUsers, "rddadarsh@gmail.com", "123456") == LoggedIn(DefaultUsers[1])
    ensures Login(DefaultUsers, "rddadarsh@gmail.com", "admin123") == LoginFailed
    ensures Login(DefaultUsers, " ", "admin123") == InvalidInput
  {
    TrimFixesTrimmed("rddadarsh@gmail.com");
    TrimFixesTrimmed("123456");
    TrimFixesTrimmed("admin123");
    assert !Matches(DefaultUsers[0], "rddadarsh@gmail.com", "123456");
  }
}
