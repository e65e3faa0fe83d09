/** The signup and login routes over the user table: signup validates its
    request in a fixed order, inserts one account and issues a token; login
    authenticates against the table without changing it. */
module AuthRoutes {
  import opened Wrappers
  import opened AuthUtils

  datatype SignupRequest = SignupRequest(fullName: string, username: string, studentId: string,
                                         email: string, password: string, confirmPassword: string)

  datatype LoginRequest = LoginRequest(email: string, password: string)

  /** The `Token` response body. */
  datatype TokenResponse = TokenResponse(accessToken: string, tokenType: string)

  const TokenType := "bearer"

  /** A login token lives 30 minutes. */
  const LoginExpiry := 30 * 60

  const PasswordMismatch := HttpError(400, "Passwords do not match")
  const EmailTaken := HttpError(400, "Email already registered")
  const UsernameTaken := HttpError(400, "Username already taken")
  const InvalidLogin := HttpError(401, "Invalid email or password")

  /** The payload a token for `id` signs, `sub` holding `str(id)`. */
  function SubjectClaims(id: int): map<string, Claim> {
    map[Sub := ClaimText(IntToString(id))]
  }

  /** The condition `User.email == email`. */
  function HasEmail(email: string): User -> bool {
    (u: User) => u.email == email
  }

  /** The first stored user with the given email: `filter(User.email == email).first()`. */
  function FindByEmail(users: seq<User>, email: string): Option<User> {
    FindFirst(users, HasEmail(email))
  }

  /** The account signup inserts: the request's fields, the hashed password,
      and no phone, emergency contact or avatar. */
  function NewUser(id: int, req: SignupRequest, hashed: string): User {
    User(id, req.fullName, req.username, req.studentId, req.email, hashed, None, None, None)
  }

  /** Every id is below `nextId`, and id, email, username and student id
      are each unique, as the table's constraints demand. */
  ghost predicate ValidUsers(users: seq<User>, nextId: int) {
    && (forall i :: 0 <= i < |users| ==> users[i].id < nextId)
    && (forall i, j :: 0 <= i < j < |users| ==>
          && users[i].id != users[j].id && users[i].email != users[j].email
          && users[i].username != users[j].username && users[i].studentId != users[j].studentId)
  }

  /** The checks `signup` makes before it inserts, in their order: the
      passwords, the email, the username, and last the unique student id the
      commit enforces (an IntegrityError, so a 500); None when all pass. */
  function SignupCheck(users: seq<User>, req: SignupRequest): (e: Option<HttpError>)
    ensures req.password != req.confirmPassword ==> e == Some(PasswordMismatch)
    ensures req.password == req.confirmPassword && (exists i :: 0 <= i < |users| && users[i].email == req.email) ==>
      e == Some(EmailTaken)
    ensures req.password == req.confirmPassword && (forall i :: 0 <= i < |users| ==> users[i].email != req.email)
            && (exists i :: 0 <= i < |users| && users[i].username == req.username) ==>
      e == Some(UsernameTaken)
    ensures req.password == req.confirmPassword
            && (forall i :: 0 <= i < |users| ==> users[i].email != req.email && users[i].username != req.username)
            && (exists i :: 0 <= i < |users| && users[i].studentId == req.studentId) ==>
      e == Some(InternalError)
    ensures e.None? <==>
      && req.password == req.confirmPassword
      && forall i :: 0 <= i < |users| ==>
           users[i].email != req.email && users[i].username != req.username && users[i].studentId != req.studentId
  {
    if req.password != req.confirmPassword then Some(PasswordMismatch)
    else if FindByEmail(users, req.email).Some? then Some(EmailTaken)
    else if exists i :: 0 <= i < |users| && users[i].username == req.username then Some(UsernameTaken)
    else if exists i :: 0 <= i < |users| && users[i].studentId == req.studentId then Some(InternalError)
    else None
  }

  /** Inserting an account that passed the checks, under the next id, keeps the table valid. */
  lemma InsertKeepsValid(users: seq<User>, nextId: int, req: SignupRequest, hashed: string)
    requires ValidUsers(users, nextId) && SignupCheck(users, req).None?
    ensures ValidUsers(users + [NewUser(nextId, req, hashed)], nextId + 1)
  {
  }

  /** The user table.  `nextId` is the id the database gives the next row. */
  class UserStore {
    var users: seq<User>
    var nextId: int

    ghost predicate Valid()
      reads this
    {
      ValidUsers(users, nextId)
    }

    constructor ()
      ensures Valid() && users == [] && nextId == 1
    {
      users := [];
      nextId := 1;
    }

    /** `signup`: fail with the first check that fails, leaving the table as
        it was; otherwise append the new account and return a bearer token
        for its id with the default expiry.  `bcrypt`, `encode` and `now`
        stand for the salted hash, `jwt.encode` and the clock. */
    method Signup(req: SignupRequest, bcrypt: string -> string, encode: map<string, Claim> -> string,
                  now: int, showTime: int -> string)
      returns (r: Result<TokenResponse, HttpError>)
      requires Valid()
      modifies this
      ensures Valid()
      ensures r.Err? <==> SignupCheck(old(users), req).Some?
      ensures r.Err? ==> r.error == SignupCheck(old(users), req).value && users == old(users) && nextId == old(nextId)
      ensures r.Ok? ==>
        && users == old(users) + [NewUser(old(nextId), req, HashPassword(req.password, bcrypt))]
        && nextId == old(nextId) + 1
        && FindByEmail(users, req.email) == Some(users[|users| - 1])
        && r.value.tokenType == TokenType
        && exists p :: TokenPayloadOf(SubjectClaims(old(nextId)), None, now, showTime, p)
                       && r.value.accessToken == encode(p)
    {
      var failure := SignupCheck(users, req);
      if failure.Some? {
        return Err(failure.value);
      }
      var hashed := HashPassword(req.password, bcrypt);
      var newUser := NewUser(nextId, req, hashed);
      InsertKeepsValid(users, nextId, req, hashed);
      FindNewEmail(users, newUser);
      users := users + [newUser];
      nextId := nextId + 1;
      var token := CreateAccessToken(SubjectClaims(newUser.id), None, now, showTime, encode);
      return Ok(TokenResponse(token, TokenType));
    }

    /** `login`: the same 401 for an unknown email and for a wrong password;
        otherwise a bearer token for the account's id that lives 30 minutes.
        `verify` stands for bcrypt's check of a password against a hash. */
    method Login(req: LoginRequest, verify: (string, string) -> bool, encode: map<string, Claim> -> string,
                 now: int, showTime: int -> string)
      returns (r: Result<TokenResponse, HttpError>)
      requires Valid()
      ensures FindByEmail(users, req.email).None? ==> r == Err(InvalidLogin)
      ensures FindByEmail(users, req.email).Some? && !verify(req.password, FindByEmail(users, req.email).value.password) ==>
        r == Err(InvalidLogin)
      ensures r.Err? ==> r == Err(InvalidLogin)
      ensures r.Ok? <==> exists i :: 0 <= i < |users| && users[i].email == req.email && verify(req.password, users[i].password)
      ensures r.Ok? ==>
        var user := FindByEmail(users, req.email).value;
        && r.value.tokenType == TokenType
        && exists p :: TokenPayloadOf(SubjectClaims(user.id), Some(LoginExpiry), now, showTime, p)
                       && r.value.accessToken == encode(p)
    {
      var found := FindByEmail(users, req.email);
      if found.None? {
        return Err(InvalidLogin);
      }
      var user := found.value;
      if !verify(req.password, user.password) {
        EmailUnique(req.email, user);
        return Err(InvalidLogin);
      }
      var token := CreateAccessToken(SubjectClaims(user.id), Some(LoginExpiry), now, showTime, encode);
      return Ok(TokenResponse(token, TokenType));
    }

    /** In a valid store the account found by email is the only one with that email. */
    lemma EmailUnique(email: string, user: User)
      requires Valid()
      requires FindByEmail(users, email) == Some(user)
      ensures forall i :: 0 <= i < |users| && users[i].email == email ==> users[i] == user
    {
      var k :| 0 <= k < |users| && users[k] == user;
      assert forall i :: 0 <= i < |users| && users[i].email == email ==> users[i] == users[k];
    }
  }

  /** After appending an account with a fresh email, looking that email up finds it. */
  lemma {:induction false} FindNewEmail(users: seq<User>, u: User)
    requires forall i :: 0 <= i < |users| ==> users[i].email != u.email
    ensures FindByEmail(users + [u], u.email) == Some(u)
  {
    if |users| > 0 {
      assert (users + [u])[1..] == users[1..] + [u];
      FindNewEmail(users[1..], u);
    }
  }
}
