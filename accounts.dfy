/** The account routes: sign-up, login, finding account e-mails by name, the unauthenticated
    password reset and the authenticated password change. The user table is a sequence of
    rows in id order. bcrypt and JWT stay abstract: a new hash is the value `hashed` the
    caller got from `bcrypt.hash`, `compare` stands for `bcrypt.compare`, and `sign` for
    `jwt.sign` with the server secret and a seven-day expiry. */
module Accounts {
  import opened Wrappers
  import opened Text
  import opened Query
  import opened Middleware

  datatype User = User(
    id: int,
    name: string,
    email: string,
    passwordHash: string,
    role: Role,
    companyName: Option<string>,
    createdAt: int)

  /** The role a new account gets: the default of the user table's role column. */
  const DefaultRole: Role := CLIENT

  /** One tag per distinct error reply of the account routes. */
  datatype AccountError =
    | InvalidName            // sign-up: name shorter than two characters after trimming
    | InvalidEmail           // sign-up and login: e-mail missing or not of the accepted form
    | WeakPassword           // sign-up: password shorter than eight characters
    | EmailTaken             // sign-up: an account with that e-mail exists
    | MissingPassword        // login: no password
    | BadCredentials         // login: unknown e-mail or wrong password, one message for both
    | NameRequired           // find-id: no name
    | NoUserWithName         // find-id: nobody has that name
    | MissingResetFields     // reset: e-mail, name or new password missing
    | ShortNewPassword       // reset and change: new password shorter than eight characters
    | UnknownEmail           // reset: no account with that exact e-mail
    | NameMismatch           // reset: the account's name differs
    | MissingChangeFields    // change: current or new password missing
    | UserGone               // change: the logged-in user no longer exists
    | WrongCurrentPassword   // change: the current password does not match

  function StatusOf(e: AccountError): int {
    match e
    case EmailTaken => 409
    case BadCredentials => 401
    case NoUserWithName | UnknownEmail | UserGone => 404
    case _ => 400
  }

  /** A character of the class `[^\s@]`. */
  predicate EmailChar(c: char) {
    !IsSpace(c) && c != '@'
  }

  /** The match of `/^[^\s@]+@[^\s@]+\.[^\s@]+$/` that puts the '@' at index `at`: every
      other character is of the class `[^\s@]`, at least one precedes the '@', and a '.'
      follows it with at least one character on each side. */
  predicate EmailSplit(s: string, at: int) {
    && 0 < at < |s| && s[at] == '@'
    && (forall k :: 0 <= k < |s| && k != at ==> EmailChar(s[k]))
    && exists dot | at + 1 < dot < |s| - 1 :: s[dot] == '.'
  }

  /** `emailRegex.test(s)`. */
  predicate IsEmail(s: string) {
    exists at | 0 < at < |s| :: EmailSplit(s, at)
  }

  lemma LowerKeepsEmailChar(c: char)
    requires EmailChar(c)
    ensures EmailChar(LowerChar(c)) && EmailChar(UpperChar(c))
  {
  }

  /** Changing the letter case keeps an accepted e-mail acceptable. */
  lemma EmailCaseInsensitive(s: string)
    requires IsEmail(s)
    ensures IsEmail(ToLower(s)) && IsEmail(ToUpper(s))
  {
    var at :| 0 < at < |s| && EmailSplit(s, at);
    var dot :| at + 1 < dot < |s| - 1 && s[dot] == '.';
    var low, up := ToLower(s), ToUpper(s);
    forall k | 0 <= k < |s| && k != at
      ensures EmailChar(low[k]) && EmailChar(up[k])
    {
      LowerKeepsEmailChar(s[k]);
    }
    assert low[dot] == '.' && up[dot] == '.';
    assert EmailSplit(low, at) && EmailSplit(up, at);
  }

  /** A string whose lower-cased form the pattern accepts is accepted itself: lower-casing
      changes only the letters A-Z, which are neither white space, '@' nor '.'. */
  lemma EmailFromLower(s: string)
    requires IsEmail(ToLower(s))
    ensures IsEmail(s)
  {
    var low := ToLower(s);
    var at :| 0 < at < |low| && EmailSplit(low, at);
    var dot :| at + 1 < dot < |low| - 1 && low[dot] == '.';
    assert low[at] == LowerChar(s[at]) && low[dot] == LowerChar(s[dot]);
    forall k | 0 <= k < |s| && k != at
      ensures EmailChar(s[k])
    {
      assert low[k] == LowerChar(s[k]);
    }
    assert s[dot] == '.';
    assert EmailSplit(s, at);
  }

  /** An accepted e-mail has exactly one '@' and no white space, so trimming leaves it alone. */
  lemma EmailShape(s: string)
    requires IsEmail(s)
    ensures forall k :: 0 <= k < |s| ==> !IsSpace(s[k])
    ensures forall i, j :: 0 <= i < j < |s| && s[i] == '@' ==> s[j] != '@'
    ensures Trim(s) == s
  {
    var at :| 0 < at < |s| && EmailSplit(s, at);
    assert forall k :: 0 <= k < |s| && k != at ==> EmailChar(s[k]);
  }

  lemma EmailExamples()
    ensures IsEmail("t@example.com")
    ensures !IsEmail("t@example")
    ensures !IsEmail("@example.com")
    ensures !IsEmail("a b@c.de")
  {
    assert EmailSplit("t@example.com", 1) by {
      assert "t@example.com"[9] == '.';
    }
    var s := "t@example";
    forall at | 0 < at < |s| && EmailSplit(s, at)
      ensures false
    {
      var dot :| at + 1 < dot < |s| - 1 && s[dot] == '.';
    }
    var b := "a b@c.de";
    forall at | 0 < at < |b| && EmailSplit(b, at)
      ensures false
    {
      assert IsSpace(b[1]);
    }
  }

  /** The sign-up checks, in the order the route runs them, and the values it stores: the
      trimmed name and the lower-cased, trimmed e-mail. */
  function CheckSignup(name: Option<string>, email: Option<string>, password: Option<string>)
    : (r: Result<(string, string), AccountError>)
    ensures r.Success? <==> && Given(name) && |Trim(name.value)| >= 2 && Given(email) && IsEmail(email.value)
                            && Given(password) && |password.value| >= 8
    ensures r.Failure? ==> r.error == InvalidName || r.error == InvalidEmail || r.error == WeakPassword
    ensures r == Failure(WeakPassword) <==>
              && Given(name) && |Trim(name.value)| >= 2 && Given(email) && IsEmail(email.value)
              && !(Given(password) && |password.value| >= 8)
  {
    if !Given(name) || |Trim(name.value)| < 2 then Failure(InvalidName)
    else if !Given(email) || !IsEmail(email.value) then Failure(InvalidEmail)
    else if !Given(password) || |password.value| < 8 then Failure(WeakPassword)
    else Success((Trim(name.value), Trim(ToLower(email.value))))
  }

  /** A failing check hides the later ones: a bad name is reported whatever the e-mail and
      password, a bad e-mail whatever the password. On success the stored name is trimmed and
      at least two characters long, the stored e-mail is the lower-cased input and still of
      the accepted form, and the password has at least eight characters. */
  lemma SignupChecks(name: Option<string>, email: Option<string>, password: Option<string>)
    ensures !Given(name) || |Trim(name.value)| < 2 ==> CheckSignup(name, email, password) == Failure(InvalidName)
    ensures Given(name) && |Trim(name.value)| >= 2 && !(Given(email) && IsEmail(email.value))
            ==> CheckSignup(name, email, password) == Failure(InvalidEmail)
    ensures CheckSignup(name, email, password).Success? ==>
              var (n, e) := CheckSignup(name, email, password).value;
              && |n| >= 2 && IsTrimmed(n)
              && e == ToLower(email.value) && IsEmail(e) && !HasUpperLetter(e)
              && |password.value| >= 8
  {
    if CheckSignup(name, email, password).Success? {
      EmailCaseInsensitive(email.value);
      EmailShape(ToLower(email.value));
      ToLowerNormalises(email.value);
    }
  }

  /** The row with e-mail `email`, which the table keeps unique. */
  function FindByEmail(users: seq<User>, email: string): (r: Option<User>)
    ensures r.Some? ==> r.value in users && r.value.email == email
    ensures r.None? ==> forall u :: u in users ==> u.email != email
  {
    if users == [] then None
    else if users[0].email == email then Some(users[0])
    else FindByEmail(users[1..], email)
  }

  function UserId(u: User): int { u.id }

  /** The row with id `id` (`findUnique` on the primary key). */
  function FindById(users: seq<User>, id: int): (r: Option<User>)
    ensures r.Some? ==> r.value in users && r.value.id == id
    ensures r.None? ==> forall u :: u in users ==> u.id != id
  {
    match IndexOf(users, UserId, id)
    case None => None
    case Some(k) => Some(users[k])
  }

  /** The account as the routes show it: every field but the password hash. */
  datatype Profile = Profile(id: int, name: string, email: string, role: Role)

  function ProfileOf(u: User): Profile {
    Profile(u.id, u.name, u.email, u.role)
  }

  /** The sign-up reply: the new account without its password hash. */
  datatype SignupReply = SignupReply(id: int, name: string, email: string, role: Role, createdAt: int)

  /** The login reply: a signed token and the account. */
  datatype Session = Session(token: string, user: Profile)

  /** POST /auth/login. The e-mail is checked against the pattern, the password must be
      given, the account is looked up by the lower-cased, trimmed e-mail, and the token is
      signed over the account's id and role. */
  function Login(users: seq<User>, email: Option<string>, password: Option<string>,
                 compare: (string, string) -> bool, sign: AuthUser -> string)
    : (r: Result<Session, AccountError>)
    ensures !Given(email) || !IsEmail(email.value) ==> r == Failure(InvalidEmail)
    ensures Given(email) && IsEmail(email.value) && !Given(password) ==> r == Failure(MissingPassword)
    ensures r.Failure? ==> r.error == InvalidEmail || r.error == MissingPassword || r.error == BadCredentials
    ensures Given(email) && IsEmail(email.value) && Given(password) && r.Failure? ==> r.error == BadCredentials
    ensures r.Success? ==>
              exists u :: && u in users && u.email == Trim(ToLower(email.value)) && compare(password.value, u.passwordHash)
                          && r.value == Session(sign(AuthUser(u.id, u.role)), ProfileOf(u))
  {
    if !Given(email) || !IsEmail(email.value) then Failure(InvalidEmail)
    else if !Given(password) then Failure(MissingPassword)
    else
      match FindByEmail(users, Trim(ToLower(email.value)))
      case None => Failure(BadCredentials)
      case Some(u) =>
        if !compare(password.value, u.passwordHash) then Failure(BadCredentials)
        else Success(Session(sign(AuthUser(u.id, u.role)), ProfileOf(u)))
  }

  /** No two rows share an e-mail (the column is unique). */
  predicate UniqueEmails(users: seq<User>) {
    forall i, j :: 0 <= i < j < |users| ==> users[i].email != users[j].email
  }

  /** With unique e-mails, the lookup finds the one row that has the e-mail. */
  lemma {:induction false} FindByEmailUnique(users: seq<User>, v: User)
    requires UniqueEmails(users) && v in users
    ensures FindByEmail(users, v.email) == Some(v)
  {
    if users[0] != v {
      var j :| 0 <= j < |users| && users[j] == v;
      assert users[0].email != v.email;
      assert v in users[1..] by {
        assert users[1..][j - 1] == v;
      }
      FindByEmailUnique(users[1..], v);
    }
  }

  /** Once the input is well formed, login fails exactly when no account has the normalised
      e-mail or the password does not match that account's hash, and both cases give the same
      reply. On success the token is signed over exactly that account's id and role. */
  lemma LoginOutcome(users: seq<User>, email: string, password: string,
                     compare: (string, string) -> bool, sign: AuthUser -> string)
    requires UniqueEmails(users)
    requires IsEmail(email) && password != []
    ensures var r := Login(users, Some(email), Some(password), compare, sign);
            && (r.Failure? <==> forall u :: u in users && u.email == ToLower(email) ==> !compare(password, u.passwordHash))
            && (r.Failure? ==> r.error == BadCredentials)
            && (r.Success? ==> exists u :: u in users && u.email == ToLower(email) && compare(password, u.passwordHash)
                                           && r.value == Session(sign(AuthUser(u.id, u.role)), ProfileOf(u)))
  {
    var key := ToLower(email);
    EmailCaseInsensitive(email);
    EmailShape(key);
    assert Trim(key) == key;
    var r := Login(users, Some(email), Some(password), compare, sign);
    var found := FindByEmail(users, key);
    assert r == if found.None? || !compare(password, found.value.passwordHash) then Failure(BadCredentials)
                else Success(Session(sign(AuthUser(found.value.id, found.value.role)), ProfileOf(found.value)));
    forall u | u in users && u.email == key
      ensures found == Some(u)
    {
      FindByEmailUnique(users, u);
    }
  }

  /** An account created by sign-up can log in with the e-mail in any letter case and the
      password whose hash was stored; the token it gets is signed over the new id and the
      default role, and the middleware then sets `req.user` to exactly that id and role,
      provided a signed token passes verification and carries no surrounding white space. */
  lemma SignupThenLogin(users: seq<User>, id: int, name: string, email: string, typed: string, password: string,
                        hashed: string, now: int,
                        compare: (string, string) -> bool, sign: AuthUser -> string,
                        verify: string -> Option<AuthUser>)
    requires IsEmail(email) && password != []
    requires ToLower(typed) == ToLower(email)
    requires FindByEmail(users, ToLower(email)).None?
    requires compare(password, hashed)
    requires verify(sign(AuthUser(id, DefaultRole))) == Some(AuthUser(id, DefaultRole))
    requires IsTrimmed(sign(AuthUser(id, DefaultRole)))
    ensures Login(users + [User(id, name, ToLower(email), hashed, DefaultRole, None, now)],
                  Some(typed), Some(password), compare, sign)
            == Success(Session(sign(AuthUser(id, DefaultRole)), Profile(id, name, ToLower(email), DefaultRole)))
    ensures var header := ExtractToken(Some(BearerPrefix + sign(AuthUser(id, DefaultRole))));
            header.Some? && verify(header.value) == Some(AuthUser(id, DefaultRole))
  {
    var created := User(id, name, ToLower(email), hashed, DefaultRole, None, now);
    EmailKey(email, typed);
    FindByEmailAppend(users, created);
    LoginFinds(users + [created], typed, password, compare, sign, created);
    BearerRoundTrip(sign(AuthUser(id, DefaultRole)));
  }

  /** An accepted e-mail typed in any letter case is still accepted, and login's lookup key
      for it is the lower-cased e-mail that sign-up stores. */
  lemma EmailKey(email: string, typed: string)
    requires IsEmail(email) && ToLower(typed) == ToLower(email)
    ensures IsEmail(typed) && Trim(ToLower(typed)) == ToLower(email)
  {
    EmailCaseInsensitive(email);
    EmailFromLower(typed);
    EmailShape(ToLower(email));
  }

  /** An accepted e-mail typed in upper case is still accepted, and login's lookup key for
      it is the lower-cased e-mail that sign-up stores. */
  lemma UpperCaseEmailKey(email: string)
    requires IsEmail(email)
    ensures IsEmail(ToUpper(email)) && Trim(ToLower(ToUpper(email))) == ToLower(email)
  {
    ToLowerIgnoresCase(email);
    EmailKey(email, ToUpper(email));
  }

  /** Login with a well-formed e-mail whose normalised form finds an account whose hash
      matches the password signs a token over that account. */
  lemma LoginFinds(users: seq<User>, email: string, password: string,
                   compare: (string, string) -> bool, sign: AuthUser -> string, u: User)
    requires IsEmail(email) && password != []
    requires FindByEmail(users, Trim(ToLower(email))) == Some(u) && compare(password, u.passwordHash)
    ensures Login(users, Some(email), Some(password), compare, sign)
            == Success(Session(sign(AuthUser(u.id, u.role)), ProfileOf(u)))
  {
    var e, p := Some(email), Some(password);
    assert Given(e) && IsEmail(e.value) && Given(p);
    assert FindByEmail(users, Trim(ToLower(e.value))) == Some(u);
  }

  /** Looking up a fresh e-mail after appending its row finds that row. */
  lemma {:induction false} FindByEmailAppend(users: seq<User>, u: User)
    requires FindByEmail(users, u.email).None?
    ensures FindByEmail(users + [u], u.email) == Some(u)
  {
    if users != [] {
      assert (users + [u])[1..] == users[1..] + [u];
      FindByEmailAppend(users[1..], u);
    }
  }

  /** The secret login signs tokens with: the `JWT_SECRET` setting `env`, or
      "dev-secret-change-me" when it is unset or empty. */
  function RoutesSecret(env: Option<string>): string {
    if Given(env) then env.value else "dev-secret-change-me"
  }

  /** As written, with `JWT_SECRET` unset the login route and the middleware fall back to
      different secrets, so the token login hands out is refused by every route behind the
      middleware, for any account (with `signWith` and `verifyWith` JWT signing and
      verification under a secret, a token verifying only under the secret it was signed
      with). */
  lemma UnsetSecretRefusesLoginTokens(signWith: (string, AuthUser) -> string,
                                      verifyWith: (string, string) -> Option<AuthUser>, u: AuthUser)
    requires forall s1, s2, t :: s1 != s2 ==> verifyWith(s2, signWith(s1, t)) == None
    requires IsTrimmed(signWith(RoutesSecret(None), u))
    ensures var header := ExtractToken(Some(BearerPrefix + signWith(RoutesSecret(None), u)));
            header.Some? && verifyWith(MiddlewareSecret(None), header.value) == None
  {
    assert |RoutesSecret(None)| != |MiddlewareSecret(None)|;
    BearerRoundTrip(signWith(RoutesSecret(None), u));
  }

  /** With the middleware falling back to the same secret as the login route, the token
      login hands out passes the middleware and yields exactly the account's id and role,
      whether or not `JWT_SECRET` is set. */
  lemma SharedSecretAdmitsLoginTokens(signWith: (string, AuthUser) -> string,
                                      verifyWith: (string, string) -> Option<AuthUser>,
                                      env: Option<string>, u: AuthUser)
    requires forall s, t :: verifyWith(s, signWith(s, t)) == Some(t)
    requires IsTrimmed(signWith(RoutesSecret(env), u))
    ensures var header := ExtractToken(Some(BearerPrefix + signWith(RoutesSecret(env), u)));
            header.Some? && verifyWith(RoutesSecret(env), header.value) == Some(u)
  {
    BearerRoundTrip(signWith(RoutesSecret(env), u));
  }

  /** One row of the find-id reply. */
  datatype IdHit = IdHit(id: int, email: string, createdAt: int)

  function HitOf(u: User): IdHit {
    IdHit(u.id, u.email, u.createdAt)
  }

  /** The name column of the table, row by row. */
  function NameColumn(users: seq<User>): (r: seq<string>)
    ensures |r| == |users|
    ensures forall i :: 0 <= i < |users| ==> r[i] == users[i].name
  {
    seq(|users|, i requires 0 <= i < |users| => users[i].name)
  }

  /** The accounts named exactly `name`, in table order: one hit per account with that name,
      so as many hits as the name occurs in the name column. */
  function UsersNamed(users: seq<User>, name: string): (r: seq<IdHit>)
    ensures |r| == multiset(NameColumn(users))[name]
    ensures forall u :: u in users && u.name == name ==> HitOf(u) in r
    ensures forall h :: h in r ==> exists u :: u in users && u.name == name && h == HitOf(u)
  {
    if users == [] then []
    else
      var rest := UsersNamed(users[1..], name);
      var r := if users[0].name == name then [HitOf(users[0])] + rest else rest;
      assert |r| == multiset(NameColumn(users))[name] by {
        NameCount(users, name);
      }
      assert forall u :: u in users && u.name == name ==> HitOf(u) in r by {
        assert forall u :: u in users ==> u == users[0] || u in users[1..];
      }
      forall h | h in r
        ensures exists u :: u in users && u.name == name && h == HitOf(u)
      {
        if users[0].name == name && h == HitOf(users[0]) {
          assert users[0] in users;
        } else {
          assert h in rest;
          var u :| u in users[1..] && u.name == name && h == HitOf(u);
          assert u in users;
        }
      }
      r
  }

  /** How often `name` occurs in the name column: in the first row, then in the rest. */
  lemma NameCount(users: seq<User>, name: string)
    requires users != []
    ensures multiset(NameColumn(users))[name]
            == (if users[0].name == name then 1 else 0) + multiset(NameColumn(users[1..]))[name]
  {
    var column := NameColumn(users);
    assert column == [users[0].name] + NameColumn(users[1..]);
    assert multiset(column) == multiset{users[0].name} + multiset(NameColumn(users[1..]));
  }

  /** The hits of a table are those of its first part followed by those of the rest: the
      hits keep the order of the rows. */
  lemma {:induction false} UsersNamedSplit(front: seq<User>, back: seq<User>, name: string)
    ensures UsersNamed(front + back, name) == UsersNamed(front, name) + UsersNamed(back, name)
  {
    if front != [] {
      var whole := front + back;
      assert whole[0] == front[0] && whole[1..] == front[1..] + back;
      UsersNamedSplit(front[1..], back, name);
    } else {
      assert front + back == back;
    }
  }

  /** POST /auth/find-id: the e-mails registered under a name, with their count. */
  function FindId(users: seq<User>, name: Option<string>): (r: Result<(nat, seq<IdHit>), AccountError>)
    ensures r == Failure(NameRequired) <==> !Given(name)
    ensures r == Failure(NoUserWithName) <==> Given(name) && forall u :: u in users ==> u.name != name.value
    ensures r.Success? <==> Given(name) && exists u :: u in users && u.name == name.value
    ensures r.Success? ==> && r.value.0 == |r.value.1| == multiset(NameColumn(users))[name.value] > 0
                           && r.value.1 == UsersNamed(users, name.value)
  {
    if !Given(name) then Failure(NameRequired)
    else
      var hits := UsersNamed(users, name.value);
      assert (exists u :: u in users && u.name == name.value) ==> |hits| > 0 by {
        if u :| u in users && u.name == name.value {
          assert HitOf(u) in hits;
        }
      }
      assert |hits| > 0 ==> exists u :: u in users && u.name == name.value by {
        if |hits| > 0 {
          assert hits[0] in hits;
        }
      }
      if |hits| == 0 then Failure(NoUserWithName) else Success((|hits|, hits))
  }

  /** The checks of POST /auth/reset-password, in order; on success, the account whose
      password is replaced. The e-mail is looked up exactly as given, not lower-cased. */
  function ResetTarget(users: seq<User>, email: Option<string>, name: Option<string>, newPassword: Option<string>)
    : (r: Result<User, AccountError>)
    ensures !(Given(email) && Given(name) && Given(newPassword)) ==> r == Failure(MissingResetFields)
    ensures Given(email) && Given(name) && Given(newPassword) && |newPassword.value| < 8 ==> r == Failure(ShortNewPassword)
    ensures r == Failure(UnknownEmail) <==>
              Given(email) && Given(name) && Given(newPassword) && |newPassword.value| >= 8
              && forall u :: u in users ==> u.email != email.value
    ensures r == Failure(NameMismatch) <==>
              Given(email) && Given(name) && Given(newPassword) && |newPassword.value| >= 8
              && FindByEmail(users, email.value).Some? && FindByEmail(users, email.value).value.name != name.value
    ensures r.Success? <==>
              Given(email) && Given(name) && Given(newPassword) && |newPassword.value| >= 8
              && FindByEmail(users, email.value).Some? && FindByEmail(users, email.value).value.name == name.value
    ensures r.Success? ==> r == Success(FindByEmail(users, email.value).value)
                           && r.value in users && r.value.email == email.value && r.value.name == name.value
  {
    if !Given(email) || !Given(name) || !Given(newPassword) then Failure(MissingResetFields)
    else if |newPassword.value| < 8 then Failure(ShortNewPassword)
    else
      match FindByEmail(users, email.value)
      case None => Failure(UnknownEmail)
      case Some(u) => if u.name != name.value then Failure(NameMismatch) else Success(u)
  }

  /** Reset looks the e-mail up as typed: since sign-up stores e-mails lower-cased, a request
      whose e-mail holds an upper-case letter finds no account, even where login would. */
  lemma ResetNeedsStoredSpelling(users: seq<User>, email: string, name: string, newPassword: string)
    requires forall u :: u in users ==> !HasUpperLetter(u.email)
    requires HasUpperLetter(email) && name != [] && |newPassword| >= 8
    ensures ResetTarget(users, Some(email), Some(name), Some(newPassword)) == Failure(UnknownEmail)
  {
  }

  /** The checks of POST /auth/change-password for the logged-in user `userId`, in order; on
      success, the account whose password is replaced. */
  function ChangeTarget(users: seq<User>, userId: int, currentPassword: Option<string>,
                        newPassword: Option<string>, compare: (string, string) -> bool)
    : (r: Result<User, AccountError>)
    ensures !(Given(currentPassword) && Given(newPassword)) ==> r == Failure(MissingChangeFields)
    ensures Given(currentPassword) && Given(newPassword) && |newPassword.value| < 8 ==> r == Failure(ShortNewPassword)
    ensures r == Failure(UserGone) <==>
              Given(currentPassword) && Given(newPassword) && |newPassword.value| >= 8
              && forall u :: u in users ==> u.id != userId
    ensures r == Failure(WrongCurrentPassword) <==>
              Given(currentPassword) && Given(newPassword) && |newPassword.value| >= 8
              && FindById(users, userId).Some? && !compare(currentPassword.value, FindById(users, userId).value.passwordHash)
    ensures r.Success? <==>
              Given(currentPassword) && Given(newPassword) && |newPassword.value| >= 8
              && FindById(users, userId).Some? && compare(currentPassword.value, FindById(users, userId).value.passwordHash)
    ensures r.Success? ==> r == Success(FindById(users, userId).value) && r.value in users && r.value.id == userId
  {
    if !Given(currentPassword) || !Given(newPassword) then Failure(MissingChangeFields)
    else if |newPassword.value| < 8 then Failure(ShortNewPassword)
    else
      match FindById(users, userId)
      case None => Failure(UserGone)
      case Some(u) =>
        if !compare(currentPassword.value, u.passwordHash) then Failure(WrongCurrentPassword)
        else Success(u)
  }

  /** The table with the password hash of account `id` replaced and every other field and row
      as it was. */
  function WithPasswordHash(users: seq<User>, id: int, hashed: string): (r: seq<User>)
    ensures |r| == |users|
    ensures forall i :: 0 <= i < |users| ==>
              r[i] == if users[i].id == id then users[i].(passwordHash := hashed) else users[i]
  {
    seq(|users|, i requires 0 <= i < |users| =>
      if users[i].id == id then users[i].(passwordHash := hashed) else users[i])
  }

  /** Ids are positive, ascending and below `nextId`; e-mails are unique and stored
      lower-case. */
  ghost predicate ValidTable(users: seq<User>, nextId: int) {
    && nextId >= 1
    && (forall i :: 0 <= i < |users| ==> 1 <= users[i].id < nextId && users[i].email == ToLower(users[i].email))
    && (forall i, j :: 0 <= i < j < |users| ==> users[i].id < users[j].id && users[i].email != users[j].email)
  }

  /** Appending a row with the next id and an unused lower-case e-mail keeps the table valid. */
  lemma AppendKeepsValid(users: seq<User>, nextId: int, row: User)
    requires ValidTable(users, nextId)
    requires row.id == nextId && row.email == ToLower(row.email) && FindByEmail(users, row.email).None?
    ensures ValidTable(users + [row], nextId + 1)
  {
    var after := users + [row];
    forall i, j | 0 <= i < j < |after|
      ensures after[i].id < after[j].id && after[i].email != after[j].email
    {
      assert after[i] == users[i];
      if j == |users| {
        assert users[i] in users;
      }
    }
  }

  /** The row sign-up inserts for an unused e-mail keeps the table valid. */
  lemma SignupKeepsValid(users: seq<User>, nextId: int, name: Option<string>, email: Option<string>,
                         password: Option<string>, row: User)
    requires ValidTable(users, nextId)
    requires CheckSignup(name, email, password).Success?
    requires row.id == nextId && row.email == CheckSignup(name, email, password).value.1
    requires FindByEmail(users, row.email).None?
    ensures ValidTable(users + [row], nextId + 1)
  {
    SignupChecks(name, email, password);
    ToLowerNormalises(email.value);
    AppendKeepsValid(users, nextId, row);
  }

  /** The user table. */
  class UserStore {
    var users: seq<User>
    var nextId: int

    ghost predicate Valid()
      reads this
    {
      ValidTable(users, nextId)
    }

    constructor ()
      ensures Valid() && users == [] && nextId == 1
    {
      users := [];
      nextId := 1;
    }

    /** POST /auth/signup with `hashed` the bcrypt hash of the password. */
    method Signup(name: Option<string>, email: Option<string>, password: Option<string>, hashed: string, now: int)
      returns (r: Result<SignupReply, AccountError>)
      requires Valid()
      modifies this
      ensures Valid()
      ensures CheckSignup(name, email, password).Failure? ==>
                r == Failure(CheckSignup(name, email, password).error) && unchanged(this)
      ensures CheckSignup(name, email, password).Success? ==>
                var (n, e) := CheckSignup(name, email, password).value;
                if FindByEmail(old(users), e).Some? then r == Failure(EmailTaken) && unchanged(this)
                else
                  && users == old(users) + [User(old(nextId), n, e, hashed, DefaultRole, None, now)]
                  && nextId == old(nextId) + 1
                  && r == Success(SignupReply(old(nextId), n, e, DefaultRole, now))
    {
      var check := CheckSignup(name, email, password);
      if check.Failure? {
        return Failure(check.error);
      }
      var n, e := check.value.0, check.value.1;
      if FindByEmail(users, e).Some? {
        return Failure(EmailTaken);
      }
      assert e == ToLower(e) by {
        SignupChecks(name, email, password);
        ToLowerNormalises(email.value);
      }
      var row := Insert(n, e, hashed, now);
      r := Success(SignupReply(row.id, n, e, DefaultRole, now));
    }

    /** `prisma.user.create` for an unused, lower-case e-mail: the row gets the next id and
        the default role, and the table stays valid. */
    method Insert(name: string, email: string, hashed: string, now: int) returns (row: User)
      requires Valid()
      requires email == ToLower(email) && FindByEmail(users, email).None?
      modifies this
      ensures Valid()
      ensures row == User(old(nextId), name, email, hashed, DefaultRole, None, now)
      ensures users == old(users) + [row] && nextId == old(nextId) + 1
    {
      row := User(nextId, name, email, hashed, DefaultRole, None, now);
      users, nextId := users + [row], nextId + 1;
      AppendKeepsValid(old(users), old(nextId), row);
    }

    /** POST /auth/reset-password with `hashed` the bcrypt hash of the new password. Only a
        successful reset changes anything, and then only that account's password hash. */
    method ResetPassword(email: Option<string>, name: Option<string>, newPassword: Option<string>, hashed: string)
      returns (r: Result<string, AccountError>)
      requires Valid()
      modifies this
      ensures Valid() && nextId == old(nextId)
      ensures var t := ResetTarget(old(users), email, name, newPassword);
              if t.Failure? then r == Failure(t.error) && users == old(users)
              else r == Success(t.value.email) && users == WithPasswordHash(old(users), t.value.id, hashed)
    {
      var t := ResetTarget(users, email, name, newPassword);
      if t.Failure? {
        return Failure(t.error);
      }
      users := WithPasswordHash(users, t.value.id, hashed);
      r := Success(t.value.email);
    }

    /** POST /auth/change-password for the logged-in user `userId`, with `hashed` the bcrypt
        hash of the new password. Only success changes anything, and then only that account's
        password hash. */
    method ChangePassword(userId: int, currentPassword: Option<string>, newPassword: Option<string>,
                          hashed: string, compare: (string, string) -> bool)
      returns (r: Result<(), AccountError>)
      requires Valid()
      modifies this
      ensures Valid() && nextId == old(nextId)
      ensures var t := ChangeTarget(old(users), userId, currentPassword, newPassword, compare);
              if t.Failure? then r == Failure(t.error) && users == old(users)
              else r == Success(()) && users == WithPasswordHash(old(users), userId, hashed)
    {
      var t := ChangeTarget(users, userId, currentPassword, newPassword, compare);
      if t.Failure? {
        return Failure(t.error);
      }
      users := WithPasswordHash(users, t.value.id, hashed);
      r := Success(());
    }
  }
}
