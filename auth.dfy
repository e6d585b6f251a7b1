/**
 * Registration, login and profile lookup over the Users table. Password
 * hashing, hash comparison and token signing are library calls outside the
 * model and are received as function values.
 */
module AuthService {
  import opened Common
  import opened Js
  import opened Jwt

  /** A row of the Users table; `password` holds the hash, never the plaintext. */
  datatype User = User(id: int, username: string, email: string, password: string, createdAt: int, updatedAt: int)

  /** The view returned by registration and by the profile route. */
  datatype PublicUser = PublicUser(id: int, username: string, email: string, createdAt: int)

  /** The view returned next to the token by login. */
  datatype SessionUser = SessionUser(id: int, username: string, email: string)

  /** A successful login: the signed token and the user it names. */
  datatype Session = Session(token: string, user: SessionUser)

  datatype RegisterBody = RegisterBody(username: Field<string>, email: Field<string>, password: Field<string>)

  datatype LoginBody = LoginBody(email: Field<string>, password: Field<string>)

  /** Registration input that passed validation. */
  datatype Credentials = Credentials(username: string, email: string, password: string)

  datatype AuthError =
    | MissingFields        // a registration field is falsy
    | PasswordTooShort     // registration password under six characters
    | UserExists           // username or email already taken
    | CredentialsRequired  // login email or password falsy
    | InvalidCredentials   // unknown email or wrong password: one error for both
    | UserNotFound         // profile of an id with no row

  function StatusCode(e: AuthError): int
  {
    match e
    case MissingFields => 400
    case PasswordTooShort => 400
    case UserExists => 409
    case CredentialsRequired => 400
    case InvalidCredentials => 401
    case UserNotFound => 404
  }

  function Message(e: AuthError): string
  {
    match e
    case MissingFields => "Todos los campos son requeridos"
    case PasswordTooShort => "La contraseña debe tener al menos 6 caracteres"
    case UserExists => "El usuario o email ya existe"
    case CredentialsRequired => "Email y contraseña son requeridos"
    case InvalidCredentials => "Credenciales inválidas"
    case UserNotFound => "Usuario no encontrado"
  }

  const MinPasswordLength := 6

  /** The checks registration makes before it touches the store. */
  function CheckRegistration(body: RegisterBody): (r: Result<Credentials, AuthError>)
    ensures r == Err(MissingFields) <==> !(Truthy(body.username) && Truthy(body.email) && Truthy(body.password))
    ensures r == Err(PasswordTooShort) <==>
      Truthy(body.username) && Truthy(body.email) && Truthy(body.password) && |body.password.value| < MinPasswordLength
    ensures r.Ok? <==>
      Truthy(body.username) && Truthy(body.email) && Truthy(body.password) && |body.password.value| >= MinPasswordLength
    ensures r.Err? ==> r.error == MissingFields || r.error == PasswordTooShort
    ensures r.Ok? ==>
      && body == RegisterBody(Given(r.value.username), Given(r.value.email), Given(r.value.password))
      && r.value.username != "" && r.value.email != "" && |r.value.password| >= MinPasswordLength
  {
    if !Truthy(body.username) || !Truthy(body.email) || !Truthy(body.password) then Err(MissingFields)
    else if |body.password.value| < MinPasswordLength then Err(PasswordTooShort)
    else Ok(Credentials(body.username.value, body.email.value, body.password.value))
  }

  /** The position of the first row satisfying `p`: the first row of a `SELECT ... WHERE p`. */
  function FirstMatch(users: seq<User>, p: User -> bool): (r: Option<nat>)
    ensures r.Some? ==> r.value < |users| && p(users[r.value])
    ensures r.Some? ==> forall j :: 0 <= j < r.value ==> !p(users[j])
    ensures r.None? ==> forall j :: 0 <= j < |users| ==> !p(users[j])
  {
    if users == [] then None
    else if p(users[0]) then Some(0)
    else match FirstMatch(users[1..], p)
      case None => None
      case Some(i) => Some(i + 1)
  }

  /** `SELECT id FROM Users WHERE username = @username OR email = @email` returns a row. */
  predicate Clash(users: seq<User>, username: string, email: string)
    ensures Clash(users, username, email) <==>
      exists i :: 0 <= i < |users| && (users[i].username == username || users[i].email == email)
  {
    FirstMatch(users, (u: User) => u.username == username || u.email == email).Some?
  }

  /** Table invariant: identity ids 1, 2, ... in insertion order; usernames unique; emails unique. */
  ghost predicate WellFormedUsers(users: seq<User>)
  {
    && (forall i :: 0 <= i < |users| ==> users[i].id == i + 1)
    && (forall i, j :: 0 <= i < j < |users| ==> users[i].username != users[j].username)
    && (forall i, j :: 0 <= i < j < |users| ==> users[i].email != users[j].email)
  }

  function PublicView(u: User): PublicUser
  {
    PublicUser(u.id, u.username, u.email, u.createdAt)
  }

  function ClaimsOf(u: User): Claims
  {
    Claims(u.id, u.username, u.email)
  }

  function SessionOf(u: User, sign: Claims -> string): Session
  {
    Session(sign(ClaimsOf(u)), SessionUser(u.id, u.username, u.email))
  }

  /** The row registration inserts: the next identity, the hash of the password, both timestamps `now`. */
  function NewUser(users: seq<User>, c: Credentials, hash: string -> string, now: int): User
  {
    User(|users| + 1, c.username, c.email, hash(c.password), now, now)
  }

  /** Appending a row that clashes with no existing one keeps the table invariant. */
  lemma AppendKeepsWellFormed(users: seq<User>, c: Credentials, hash: string -> string, now: int)
    requires WellFormedUsers(users)
    requires !Clash(users, c.username, c.email)
    ensures WellFormedUsers(users + [NewUser(users, c, hash, now)])
  {
  }

  /**
   * Login: `compare` stands for `bcrypt.compare` and `sign` for `jwt.sign`
   * with the configured secret and expiry.
   */
  function Login(users: seq<User>, body: LoginBody, compare: (string, string) -> bool, sign: Claims -> string): (r: Result<Session, AuthError>)
    ensures r == Err(CredentialsRequired) <==> !(Truthy(body.email) && Truthy(body.password))
    ensures (&& Truthy(body.email) && Truthy(body.password)
             && forall i :: 0 <= i < |users| ==> users[i].email != body.email.value)
      ==> r == Err(InvalidCredentials)
    ensures r.Err? ==> r.error == CredentialsRequired || r.error == InvalidCredentials
    ensures r.Ok? ==> exists i :: (&& 0 <= i < |users| && users[i].email == body.email.value
                                   && compare(body.password.value, users[i].password)
                                   && r.value == SessionOf(users[i], sign))
  {
    if !Truthy(body.email) || !Truthy(body.password) then Err(CredentialsRequired)
    else match FirstMatch(users, (u: User) => u.email == body.email.value)
      case None => Err(InvalidCredentials)
      case Some(i) =>
        if !compare(body.password.value, users[i].password) then Err(InvalidCredentials)
        else Ok(SessionOf(users[i], sign))
  }

  /** With unique emails, login for a registered email succeeds exactly when the password compares equal. */
  lemma LoginDecidedByCompare(users: seq<User>, i: nat, password: string,
                              compare: (string, string) -> bool, sign: Claims -> string)
    requires WellFormedUsers(users)
    requires i < |users| && users[i].email != "" && password != ""
    ensures var r := Login(users, LoginBody(Given(users[i].email), Given(password)), compare, sign);
      && (r.Ok? <==> compare(password, users[i].password))
      && (r.Ok? ==> r.value == SessionOf(users[i], sign))
      && (r.Err? ==> r.error == InvalidCredentials)
  {
  }

  /** An unknown email and a wrong password produce the same response. */
  lemma UnknownEmailLooksLikeWrongPassword(users: seq<User>, unknown: string, i: nat, p1: string, p2: string,
                                           compare: (string, string) -> bool, sign: Claims -> string)
    requires WellFormedUsers(users)
    requires unknown != "" && p1 != "" && p2 != ""
    requires forall j :: 0 <= j < |users| ==> users[j].email != unknown
    requires i < |users| && users[i].email != "" && !compare(p2, users[i].password)
    ensures Login(users, LoginBody(Given(unknown), Given(p1)), compare, sign)
         == Login(users, LoginBody(Given(users[i].email), Given(p2)), compare, sign)
         == Err(InvalidCredentials)
  {
  }

  /** `SELECT id, username, email, createdAt FROM Users WHERE id = @userId`. */
  function GetProfile(users: seq<User>, userId: int): (r: Result<PublicUser, AuthError>)
    ensures r.Err? <==> forall i :: 0 <= i < |users| ==> users[i].id != userId
    ensures r.Err? ==> r.error == UserNotFound
    ensures r.Ok? ==> exists i :: 0 <= i < |users| && users[i].id == userId && r.value == PublicView(users[i])
  {
    match FirstMatch(users, (u: User) => u.id == userId)
    case None => Err(UserNotFound)
    case Some(i) => Ok(PublicView(users[i]))
  }

  /** The Users table, appended to by registration. */
  class UserTable {
    var users: seq<User>

    ghost predicate Valid()
      reads this
    {
      WellFormedUsers(users)
    }

    constructor ()
      ensures Valid() && users == []
    {
      users := [];
    }

    /** `hash` stands for `bcrypt.hash(password, 10)`. */
    method Register(body: RegisterBody, hash: string -> string, now: int) returns (r: Result<PublicUser, AuthError>)
      requires Valid()
      modifies this
      ensures Valid()
      ensures CheckRegistration(body).Err? ==> r == Err(CheckRegistration(body).error) && users == old(users)
      ensures CheckRegistration(body).Ok? && Clash(old(users), CheckRegistration(body).value.username, CheckRegistration(body).value.email)
        ==> r == Err(UserExists) && users == old(users)
      ensures CheckRegistration(body).Ok? && !Clash(old(users), CheckRegistration(body).value.username, CheckRegistration(body).value.email)
        ==> var u := NewUser(old(users), CheckRegistration(body).value, hash, now);
            users == old(users) + [u] && r == Ok(PublicView(u))
    {
      var check := CheckRegistration(body);
      if check.Err? {
        return Err(check.error);
      }
      var c := check.value;
      if Clash(users, c.username, c.email) {
        return Err(UserExists);
      }
      var user := NewUser(users, c, hash, now);
      AppendKeepsWellFormed(users, c, hash, now);
      users := users + [user];
      r := Ok(PublicView(user));
    }
  }
}
