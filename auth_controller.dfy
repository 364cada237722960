/** Registration, login and the email-availability check over the users table. Password
    hashing (bcrypt) is outside the model: registration receives the hash of the submitted
    password, and login receives bcrypt's comparison as a function. */
module AuthController {
  import opened Wrappers
  import opened Models
  import opened Email
  import opened AuthMiddleware

  datatype RegisterData = RegisterData(firstName: string, lastName: string, email: string, password: string)
  datatype LoginCredentials = LoginCredentials(email: string, password: string)

  /** The body of a successful register or login reply. */
  datatype AuthPayload = AuthPayload(user: UserDto, token: string)

  const FieldsRequiredMessage := "All fields are required"
  const CredentialsRequiredMessage := "Email and password are required"
  const InvalidEmailMessage := "Invalid email format"
  const ShortPasswordMessage := "Password must be at least 4 characters"
  const EmailTakenMessage := "Email already registered"
  const BadCredentialsMessage := "Incorrect email or password"

  const MinPasswordLength := 4

  /** The register checks, first failure first: empty fields, email format, password length. */
  function ValidateRegistration(data: RegisterData): (err: Option<string>)
    ensures err.None? <==> && data.firstName != "" && data.lastName != "" && data.email != ""
                           && data.password != "" && IsValidEmail(data.email)
                           && |data.password| >= MinPasswordLength
    ensures (data.firstName == "" || data.lastName == "" || data.email == "" || data.password == "")
            ==> err == Some(FieldsRequiredMessage)
    ensures data.firstName != "" && data.lastName != "" && data.email != "" && data.password != ""
            && !IsValidEmail(data.email)
            ==> err == Some(InvalidEmailMessage)
    ensures data.firstName != "" && data.lastName != "" && data.email != "" && data.password != ""
            && IsValidEmail(data.email) && |data.password| < MinPasswordLength
            ==> err == Some(ShortPasswordMessage)
  {
    if data.firstName == "" || data.lastName == "" || data.email == "" || data.password == "" then
      Some(FieldsRequiredMessage)
    else if !IsValidEmail(data.email) then Some(InvalidEmailMessage)
    else if |data.password| < MinPasswordLength then Some(ShortPasswordMessage)
    else None
  }

  /** The login checks, first failure first: empty fields, email format, password length. */
  function ValidateCredentials(credentials: LoginCredentials): (err: Option<string>)
    ensures err.None? <==> && credentials.email != "" && credentials.password != ""
                           && IsValidEmail(credentials.email) && |credentials.password| >= MinPasswordLength
    ensures credentials.email == "" || credentials.password == "" ==> err == Some(CredentialsRequiredMessage)
    ensures credentials.email != "" && credentials.password != "" && !IsValidEmail(credentials.email)
            ==> err == Some(InvalidEmailMessage)
    ensures credentials.email != "" && credentials.password != "" && IsValidEmail(credentials.email)
            && |credentials.password| < MinPasswordLength
            ==> err == Some(ShortPasswordMessage)
  {
    if credentials.email == "" || credentials.password == "" then Some(CredentialsRequiredMessage)
    else if !IsValidEmail(credentials.email) then Some(InvalidEmailMessage)
    else if |credentials.password| < MinPasswordLength then Some(ShortPasswordMessage)
    else None
  }

  /** `SELECT * FROM users WHERE email = ?`, first row. */
  function FindByEmail(users: seq<User>, email: string): (found: Option<User>)
    ensures found.Some? ==> found.value in users && found.value.email == email
    ensures found.None? <==> forall i :: 0 <= i < |users| ==> users[i].email != email
    decreases |users|
  {
    if users == [] then None
    else if users[0].email == email then Some(users[0])
    else
      var found := FindByEmail(users[1..], email);
      assert forall i :: 0 < i < |users| ==> users[i] == users[1..][i - 1];
      found
  }

  /** GET /auth/check-email/:email: whether some user has that email. */
  function CheckEmail(users: seq<User>, email: string): (exists_: bool)
    ensures exists_ <==> exists u :: u in users && u.email == email
  {
    var found := FindByEmail(users, email);
    assert found.None? ==> forall u :: u in users ==> u.email != email;
    found.Some?
  }

  /** No two users share an email. */
  predicate UniqueEmails(users: seq<User>) {
    forall i, j :: 0 <= i < j < |users| ==> users[i].email != users[j].email
  }

  /** POST /auth/login. Both an unknown email and a wrong password give the same 401. */
  function Login(users: seq<User>, credentials: LoginCredentials, compare: (string, string) -> bool,
                 jwt: JwtOracle): (r: Reply<AuthPayload>)
    ensures ValidateCredentials(credentials).Some? ==> r == Failure(BAD_REQUEST, ValidateCredentials(credentials).value)
    ensures r.Success? <==> && ValidateCredentials(credentials).None?
                            && FindByEmail(users, credentials.email).Some?
                            && compare(credentials.password, FindByEmail(users, credentials.email).value.password)
    ensures r.Success? ==> && r.status == OK
                           && r.value.user == ToDto(FindByEmail(users, credentials.email).value)
                           && r.value.token == GenerateToken(r.value.user, jwt)
    ensures r.Failure? && ValidateCredentials(credentials).None? ==> r == Failure(UNAUTHORIZED, BadCredentialsMessage)
  {
    match ValidateCredentials(credentials)
    case Some(err) => Failure(BAD_REQUEST, err)
    case None =>
      match FindByEmail(users, credentials.email)
      case None => Failure(UNAUTHORIZED, BadCredentialsMessage)
      case Some(user) =>
        if !compare(credentials.password, user.password) then Failure(UNAUTHORIZED, BadCredentialsMessage)
        else
          var dto := UserDto(user.id, user.firstName, user.lastName, user.email, user.role);
          Success(OK, AuthPayload(dto, GenerateToken(dto, jwt)))
  }

  /** An unknown email and a known email with a wrong password get the very same reply. */
  lemma LoginFailuresIndistinguishable(users: seq<User>, unknown: LoginCredentials, wrong: LoginCredentials,
                                       compare: (string, string) -> bool, jwt: JwtOracle)
    requires ValidateCredentials(unknown).None? && ValidateCredentials(wrong).None?
    requires FindByEmail(users, unknown.email).None?
    requires FindByEmail(users, wrong.email).Some?
    requires !compare(wrong.password, FindByEmail(users, wrong.email).value.password)
    ensures Login(users, unknown, compare, jwt) == Login(users, wrong, compare, jwt)
    ensures Login(users, unknown, compare, jwt) == Failure(UNAUTHORIZED, BadCredentialsMessage)
  {
  }

  /** The users table with its auto-increment counter. */
  class UserStore {
    var users: seq<User>
    var nextId: nat

    /** Ids are positive, below `nextId` and distinct; emails are unique. */
    ghost predicate Valid()
      reads this
    {
      && nextId >= 1
      && (forall i :: 0 <= i < |users| ==> 1 <= users[i].id < nextId)
      && (forall i, j :: 0 <= i < j < |users| ==> users[i].id != users[j].id)
      && UniqueEmails(users)
    }

    constructor ()
      ensures Valid() && users == [] && nextId == 1
    {
      users := [];
      nextId := 1;
    }

    /** POST /auth/register. `hashed` is bcrypt's hash of `data.password`. */
    method Register(data: RegisterData, hashed: string, jwt: JwtOracle) returns (r: Reply<AuthPayload>)
      requires Valid()
      modifies this
      ensures Valid()
      ensures ValidateRegistration(data).Some? ==> r == Failure(BAD_REQUEST, ValidateRegistration(data).value)
      ensures ValidateRegistration(data).None? && CheckEmail(old(users), data.email)
              ==> r == Failure(CONFLICT, EmailTakenMessage)
      ensures r.Failure? ==> users == old(users) && nextId == old(nextId)
      ensures r.Success? <==> ValidateRegistration(data).None? && !CheckEmail(old(users), data.email)
      ensures r.Success? ==>
        var user := User(old(nextId), data.firstName, data.lastName, data.email, hashed, UserRole);
        && r.status == CREATED
        && users == old(users) + [user]
        && nextId == old(nextId) + 1
        && r.value == AuthPayload(ToDto(user), GenerateToken(ToDto(user), jwt))
    {
      var err := ValidateRegistration(data);
      if err.Some? {
        return Failure(BAD_REQUEST, err.value);
      }
      if CheckEmail(users, data.email) {
        return Failure(CONFLICT, EmailTakenMessage);
      }
      var user := User(nextId, data.firstName, data.lastName, data.email, hashed, UserRole);
      assert forall i :: 0 <= i < |users| ==> users[i].email != data.email by {
        forall i | 0 <= i < |users| ensures users[i].email != data.email {
          assert users[i] in users;
        }
      }
      users := users + [user];
      nextId := nextId + 1;
      var dto := UserDto(user.id, data.firstName, data.lastName, data.email, UserRole);
      r := Success(CREATED, AuthPayload(dto, GenerateToken(dto, jwt)));
    }
  }

  /** After a registration the same email and password log in as the new user, given that
      bcrypt accepts the password against the hash it made of it. */
  lemma LoginAfterRegister(users: seq<User>, id: nat, data: RegisterData, hashed: string,
                           compare: (string, string) -> bool, jwt: JwtOracle)
    requires ValidateRegistration(data).None?
    requires !CheckEmail(users, data.email)
    requires compare(data.password, hashed)
    ensures var user := User(id, data.firstName, data.lastName, data.email, hashed, UserRole);
      Login(users + [user], LoginCredentials(data.email, data.password), compare, jwt)
        == Success(OK, AuthPayload(ToDto(user), GenerateToken(ToDto(user), jwt)))
  {
    var user := User(id, data.firstName, data.lastName, data.email, hashed, UserRole);
    FindAfterAppend(users, user);
  }

  lemma {:induction false} FindAfterAppend(users: seq<User>, user: User)
    requires forall i :: 0 <= i < |users| ==> users[i].email != user.email
    ensures FindByEmail(users + [user], user.email) == Some(user)
    decreases |users|
  {
    if users != [] {
      assert (users + [user])[1..] == users[1..] + [user];
      FindAfterAppend(users[1..], user);
    }
  }
}
