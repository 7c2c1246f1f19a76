/** `POST` of src/app/api/users/login/route.ts: read the users file, take the first record
    whose email equals the request's, check the password against its bcrypt hash and answer
    with a signed token, a 401 or a 500. bcrypt is the parameter `matches`; signing is not
    modelled, so a success carries the token's claims. */
module LoginRoute {
  import opened Wrappers
  import opened Text
  import opened FileIo
  import opened UsersRoute

  /** The token payload `{ userId, email, username }`. */
  datatype Claims = Claims(userId: Option<string>, email: Option<string>, username: Option<string>)

  datatype LoginResponse = SignedToken(claims: Claims) | InvalidCredentials | LoginFailed
  {
    function Status(): int
    {
      match this
      case SignedToken(_) => 200
      case InvalidCredentials => 401
      case LoginFailed => 500
    }

    function Error(): Option<string>
    {
      match this
      case SignedToken(_) => None
      case InvalidCredentials => Some("Invalid credentials")
      case LoginFailed => Some("Login failed")
    }
  }

  /** Record `i` is the first whose email is `email`. */
  predicate FirstMatch(users: seq<User>, email: string, i: int)
  {
    0 <= i < |users| && users[i].email == Some(email)
    && forall j :: 0 <= j < i ==> users[j].email != Some(email)
  }

  /** `users.find(u => u.email === email)`. */
  function FindByEmail(users: seq<User>, email: string): (found: Option<User>)
    ensures found.None? <==> forall j :: 0 <= j < |users| ==> users[j].email != Some(email)
    ensures forall i :: FirstMatch(users, email, i) ==> found == Some(users[i])
    ensures found.Some? ==> exists i :: FirstMatch(users, email, i) && found == Some(users[i])
  {
    if users == [] then None
    else if users[0].email == Some(email) then
      assert FirstMatch(users, email, 0);
      Some(users[0])
    else
      var found := FindByEmail(users[1..], email);
      assert forall i :: FirstMatch(users, email, i) ==> FirstMatch(users[1..], email, i - 1);
      assert forall i :: FirstMatch(users[1..], email, i) ==> FirstMatch(users, email, i + 1);
      found
  }

  /** The claims of a matched record: its id, email and username, nothing else. */
  function ClaimsOf(user: User): Claims
  {
    Claims(user.id, user.email, user.username)
  }

  /** The handler. A read error of any kind, a missing file included, is a 500. A record
      without a password column makes `bcrypt.compare` reject, which is a 500 too. */
  function Login(read: ReadResult, email: string, password: string, matches: (string, string) -> bool): (r: LoginResponse)
    ensures !read.Contents? ==> r == LoginFailed
    ensures r.SignedToken? ==> read.Contents? && r.claims.email == Some(email)
    ensures r.SignedToken? ==>
      (exists i :: FirstMatch(ParseUsers(read.text), email, i)
        && ParseUsers(read.text)[i].password.Some? && matches(password, ParseUsers(read.text)[i].password.value)
        && r.claims == ClaimsOf(ParseUsers(read.text)[i]))
  {
    match read
    case Contents(content) =>
      (match FindByEmail(ParseUsers(content), email)
       case None => InvalidCredentials
       case Some(user) =>
         (match user.password
          case None => LoginFailed
          case Some(hash) => if matches(password, hash) then SignedToken(ClaimsOf(user)) else InvalidCredentials))
    case NotFound => LoginFailed
    case ReadFailed => LoginFailed
  }

  /** Any failure to read the file, including a missing file, is a 500 "Login failed". */
  lemma UnreadableFileFails(read: ReadResult, email: string, password: string, matches: (string, string) -> bool)
    requires !read.Contents?
    ensures Login(read, email, password, matches).Status() == 500
    ensures Login(read, email, password, matches).Error() == Some("Login failed")
  {
  }

  /** An email that no record holds is a 401 "Invalid credentials", whatever the password. */
  lemma UnknownEmailIsRejected(content: string, email: string, password: string, matches: (string, string) -> bool)
    requires forall j :: 0 <= j < |ParseUsers(content)| ==> ParseUsers(content)[j].email != Some(email)
    ensures Login(Contents(content), email, password, matches) == InvalidCredentials
    ensures InvalidCredentials.Status() == 401 && InvalidCredentials.Error() == Some("Invalid credentials")
  {
  }

  /** Only the first record with the email decides: its hash is checked, and on success the
      claims are exactly its id, email and username. A wrong password gives the very same
      401 as an unknown email. */
  lemma FirstMatchDecides(content: string, email: string, password: string, matches: (string, string) -> bool, i: int)
    requires FirstMatch(ParseUsers(content), email, i)
    ensures var user := ParseUsers(content)[i];
      Login(Contents(content), email, password, matches) ==
        match user.password
        case None => LoginFailed
        case Some(hash) => if matches(password, hash) then SignedToken(ClaimsOf(user)) else InvalidCredentials
  {
  }

  /** The header line is never a candidate: a file holding only a header line rejects every
      login, even one whose email equals the header's second column. */
  lemma HeaderNeverMatches(header: string, email: string, password: string, matches: (string, string) -> bool)
    requires '\n' !in header
    ensures Login(Contents(header + "\n"), email, password, matches) == InvalidCredentials
  {
    HeaderLineIgnored(header, "");
    assert header + "\n" == header + "\n" + "";
    assert NonBlank(Split("", '\n')) == [] by {
      assert IsBlank("");
    }
  }

  /** A user registered by the users route, under an email no earlier record holds, logs in
      with a password that matches the stored hash, and the token names that user. */
  lemma {:induction false} RegisteredUserLogsIn(content: string, u: NewUser, password: string, matches: (string, string) -> bool)
    requires EndsWithNewline(content) && CleanFields(u)
    requires forall j :: 0 <= j < |ParseUsers(content)| ==> ParseUsers(content)[j].email != Some(u.email)
    requires matches(password, u.hashedPassword)
    ensures Login(Contents(content + RecordLine(u)), u.email, password, matches) ==
      SignedToken(Claims(Some(u.id), Some(u.email), Some(u.username)))
  {
    AppendedUserReadBack(content, u);
    var users := ParseUsers(content + RecordLine(u));
    assert FirstMatch(users, u.email, |ParseUsers(content)|);
  }
}
