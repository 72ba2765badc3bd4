/**
 * The authentication service: a user directory kept under the `users` key of
 * local storage, a session (the current user, mirrored under `currentUser`),
 * the registration validators and the login/logout/role operations.
 */
module Auth {
  import opened Optional
  import opened JsString
  import JsArray

  datatype Role = Customer | Walker

  /** A stored account; `role` is optional in the stored record. */
  datatype User = User(username: string, email: string, password: string, role: Option<Role>)

  /** The registration form: a user plus the password confirmation. */
  datatype Registration = Registration(username: string, email: string, password: string, confirmPassword: string)

  datatype Credentials = Credentials(email: string, password: string)

  datatype AuthError = InvalidUsername | InvalidEmail | PasswordMismatch | AlreadyExists | WrongCredentials

  /** `{ success, message, user? }`: the user on success, the failed check otherwise. */
  datatype AuthResult = Accepted(user: User) | Rejected(error: AuthError)

  /** The message returned with each failure. */
  function ErrorMessage(e: AuthError): string {
    match e
    case InvalidUsername => "El nombre de usuario debe tener entre 3 y 20 caracteres"
    case InvalidEmail => "El email debe tener un formato válido con más de 2 caracteres en usuario y dominio"
    case PasswordMismatch => "Las contraseñas no coinciden"
    case AlreadyExists => "Ya existe un usuario con este email o nombre de usuario"
    case WrongCredentials => "Email o contraseña incorrectos"
  }

  const RegisteredMessage: string := "Usuario registrado exitosamente"

  const LoggedInMessage: string := "Inicio de sesión exitoso"

  /** The message returned with an outcome; `success` names the success message of the operation. */
  function ResultMessage(r: AuthResult, success: string): string {
    if r.Accepted? then success else ErrorMessage(r.error)
  }

  // ---------------------------------------------------------------------------
  // Validators

  /** A username is acceptable when its trimmed length is between 3 and 20. */
  predicate ValidUsername(username: string) {
    3 <= JsLength(Trim(username)) <= 20
  }

  /** For a username of lower-case letters the bound is on its number of letters: "ab" fails, "abc" passes, 21 letters fail. */
  lemma PlainUsernameLength(s: string)
    requires forall i :: 0 <= i < |s| ==> 'a' as int <= s[i] as int <= 'z' as int
    ensures ValidUsername(s) <==> 3 <= |s| <= 20
  {
    LettersAreTrimmed(s);
    LettersAreSingleUnits(s);
  }

  lemma LettersAreTrimmed(s: string)
    requires forall i :: 0 <= i < |s| ==> 'a' as int <= s[i] as int <= 'z' as int
    ensures Trim(s) == s
  {
    if s != [] {
      assert !IsWhitespace(s[0]) && !IsWhitespace(s[|s| - 1]);
    }
    TrimOfTrimmed(s);
  }

  lemma LettersAreSingleUnits(s: string)
    requires forall i :: 0 <= i < |s| ==> 'a' as int <= s[i] as int <= 'z' as int
    ensures JsLength(s) == |s|
  {
    forall i | 0 <= i < |s|
      ensures s[i] as int < 0x10000
    {
    }
  }

  /** No character of s is whitespace or '@': the class `[^\s@]`. */
  predicate NoSpaceOrAt(s: string) {
    forall i :: 0 <= i < |s| ==> !IsWhitespace(s[i]) && s[i] != '@'
  }

  /**
   * s matches /^[^\s@]+@[^\s@]+\.[^\s@]+$/ with the '@' at i and the
   * separating '.' at j: three non-empty runs of `[^\s@]` around them. The
   * '.' itself belongs to `[^\s@]`, so every position but i is in the class.
   */
  predicate MatchesAt(s: string, i: int, j: int) {
    0 < i && i + 1 < j && j + 1 < |s| && s[i] == '@' && s[j] == '.'
    && forall k :: 0 <= k < |s| && k != i ==> !IsWhitespace(s[k]) && s[k] != '@'
  }

  /** The language of the email regular expression. */
  ghost predicate MatchesEmailRegex(s: string) {
    exists i, j :: MatchesAt(s, i, j)
  }

  /** Some '.' of d has text on both sides. */
  predicate HasInnerDot(d: string) {
    exists k :: 0 < k < |d| - 1 && d[k] == '.'
  }

  /**
   * `isValidEmail`, by a scan instead of a regular expression: one '@' with
   * text before it, and after it text free of '@' and whitespace that has a
   * '.' with text on both sides.
   */
  predicate IsValidEmail(email: string) {
    var at := IndexOf(email, '@');
    at > 0 && NoSpaceOrAt(email[..at]) && NoSpaceOrAt(email[at + 1..]) && HasInnerDot(email[at + 1..])
  }

  /** The scan accepts exactly the strings the regular expression matches. */
  lemma IsValidEmailIsRegex(s: string)
    ensures IsValidEmail(s) <==> MatchesEmailRegex(s)
  {
    if IsValidEmail(s) {
      ValidEmailMatches(s);
    }
    if MatchesEmailRegex(s) {
      var i, j :| MatchesAt(s, i, j);
      MatchIsValidEmail(s, i, j);
    }
  }

  lemma ValidEmailMatches(s: string)
    requires IsValidEmail(s)
    ensures MatchesEmailRegex(s)
  {
    var at := IndexOf(s, '@');
    var d := s[at + 1..];
    var k :| 0 < k < |d| - 1 && d[k] == '.';
    forall m | 0 <= m < |s| && m != at
      ensures !IsWhitespace(s[m]) && s[m] != '@'
    {
      if m < at {
        assert s[m] == s[..at][m];
      } else {
        assert s[m] == d[m - at - 1];
      }
    }
    assert MatchesAt(s, at, at + 1 + k);
  }

  lemma MatchIsValidEmail(s: string, i: int, j: int)
    requires MatchesAt(s, i, j)
    ensures IsValidEmail(s) && IndexOf(s, '@') == i
  {
    assert s == s[..i] + ['@'] + s[i + 1..];
    IndexOfAfterPrefix(s[..i], '@', s[i + 1..]);
    var d := s[i + 1..];
    assert d[j - i - 1] == '.';
  }

  lemma EmailParts(email: string)
    requires IsValidEmail(email)
    ensures |Split(email, '@')| >= 2
    ensures Split(email, '@')[0] == email[..IndexOf(email, '@')]
    ensures Split(email, '@')[1] == email[IndexOf(email, '@') + 1..]
    ensures '.' in Split(email, '@')[1]
  {
    var at := IndexOf(email, '@');
    SplitSecond(email, '@');
    var k :| 0 < k < |email[at + 1..]| - 1 && email[at + 1..][k] == '.';
  }

  /**
   * `validateEmailFormat`: the regular expression, then the part before '@'
   * longer than 2, the text between '@' and the first '.' longer than 2 and
   * the segment after that '.', up to the next '.' or the end, non-empty.
   */
  predicate ValidateEmailFormat(email: string) {
    if !IsValidEmail(email) then false
    else
      EmailParts(email);
      var parts := Split(email, '@');
      var domainParts := Split(parts[1], '.');
      JsLength(parts[0]) > 2 && JsLength(domainParts[0]) > 2 && JsLength(domainParts[1]) > 0
  }

  /** What `validateEmailFormat` accepts, stated with positions instead of splits. */
  lemma ValidateEmailFormatSpec(email: string)
    ensures ValidateEmailFormat(email) <==>
      MatchesEmailRegex(email) &&
      var at := IndexOf(email, '@');
      var domain := email[at + 1..];
      var dot := IndexOf(domain, '.');
      0 <= at && 0 <= dot
      && JsLength(email[..at]) > 2
      && JsLength(domain[..dot]) > 2
      && dot + 1 < |domain| && domain[dot + 1] != '.'
  {
    IsValidEmailIsRegex(email);
    if IsValidEmail(email) {
      EmailParts(email);
      SecondDomainPart(email[IndexOf(email, '@') + 1..]);
    }
  }

  /** The second part `split('.')` gives for a domain is non-empty iff its first dot is followed by something other than a dot. */
  lemma SecondDomainPart(domain: string)
    requires '.' in domain
    ensures JsLength(Split(domain, '.')[1]) > 0 <==>
      IndexOf(domain, '.') + 1 < |domain| && domain[IndexOf(domain, '.') + 1] != '.'
  {
    var dot := IndexOf(domain, '.');
    var rest := domain[dot + 1..];
    FirstPartNonEmpty(rest, '.');
    assert rest != [] && rest[0] != '.' <==> dot + 1 < |domain| && domain[dot + 1] != '.' by {
      if rest != [] {
        assert rest[0] == domain[dot + 1];
      }
    }
  }

  /** The first part of a split is empty exactly when the string is empty or starts with the separator. */
  lemma FirstPartNonEmpty(s: string, sep: char)
    ensures JsLength(Split(s, sep)[0]) > 0 <==> s != [] && s[0] != sep
  {
    if s != [] && s[0] == sep {
      assert IndexOf(s, sep) == 0;
    }
  }

  /** A well-formed email has no whitespace, so trimming it changes nothing. */
  lemma ValidEmailIsTrimmed(email: string)
    requires IsValidEmail(email)
    ensures Trim(email) == email
  {
    var at := IndexOf(email, '@');
    assert email == email[..at] + ['@'] + email[at + 1..];
    assert !IsWhitespace(email[0]);
    assert !IsWhitespace(email[|email| - 1]) by {
      assert email[|email| - 1] == email[at + 1..][|email| - at - 2];
    }
    TrimOfTrimmed(email);
  }

  /**
   * An address assembled from a local part, a domain name without dots and
   * the rest passes exactly when the local part and the domain name are
   * longer than 2 and the rest does not start with another dot.
   */
  lemma EmailFromParts(local: string, name: string, rest: string)
    requires local != [] && name != [] && rest != []
    requires NoSpaceOrAt(local) && NoSpaceOrAt(name) && NoSpaceOrAt(rest) && '.' !in name
    ensures ValidateEmailFormat(local + "@" + name + "." + rest)
      <==> JsLength(local) > 2 && JsLength(name) > 2 && rest[0] != '.'
  {
    AssembledEmailSplits(local, name, rest);
    var domain := name + "." + rest;
    assert Split(domain, '.') == [name] + Split(rest, '.') by {
      assert domain == name + ['.'] + rest;
      SplitAtFirst(name, '.', rest);
    }
    FirstPartNonEmpty(rest, '.');
  }

  lemma AssembledEmailSplits(local: string, name: string, rest: string)
    requires local != [] && name != [] && rest != []
    requires NoSpaceOrAt(local) && NoSpaceOrAt(name) && NoSpaceOrAt(rest)
    ensures IsValidEmail(local + "@" + name + "." + rest)
    ensures Split(local + "@" + name + "." + rest, '@') == [local, name + "." + rest]
  {
    var domain := name + "." + rest;
    var s := local + "@" + domain;
    assert local + "@" + name + "." + rest == s;
    assert domain[|name|] == '.';
    AssembledEmailMatches(local, domain, |name|);
    assert s == local + ['@'] + domain;
    SplitAtFirst(local, '@', domain);
  }

  /** local@domain with a dot inside domain at position d matches the pattern and passes the scan. */
  lemma AssembledEmailMatches(local: string, domain: string, d: int)
    requires local != [] && 0 < d < |domain| - 1 && domain[d] == '.'
    requires NoSpaceOrAt(local) && NoSpaceOrAt(domain)
    ensures IsValidEmail(local + "@" + domain)
  {
    var s := local + "@" + domain;
    var i := |local|;
    assert s[..i] == local && s[i + 1..] == domain;
    assert MatchesAt(s, i, i + 1 + d);
    MatchIsValidEmail(s, i, i + 1 + d);
  }

  /** `validatePasswords`: the confirmation matches and the password is not empty. */
  predicate ValidPasswords(password: string, confirmPassword: string) {
    password == confirmPassword && |password| > 0
  }

  // ---------------------------------------------------------------------------
  // Registration

  /** The record registration stores: trimmed username and email, role customer. */
  function NewUser(data: Registration): User {
    User(Trim(data.username), Trim(data.email), data.password, Some(Customer))
  }

  /**
   * The uniqueness check as written: a stored user with the same email or the
   * same untrimmed username.
   */
  predicate UserExistsAsWritten(users: seq<User>, data: Registration) {
    exists i :: 0 <= i < |users| && (users[i].email == data.email || users[i].username == data.username)
  }

  /**
   * The uniqueness check this model uses: the check as written, or a stored
   * user whose username equals the trimmed username that would be stored.
   */
  predicate UserExists(users: seq<User>, data: Registration) {
    UserExistsAsWritten(users, data)
    || exists i :: 0 <= i < |users| && users[i].username == Trim(data.username)
  }

  /** No two accounts share an email, and no two share a username. */
  predicate DistinctAccounts(users: seq<User>) {
    forall i, j :: 0 <= i < j < |users| ==>
      users[i].email != users[j].email && users[i].username != users[j].username
  }

  /** The outcome of `register` on a directory: the first failed check, or the new user. */
  function CheckRegistration(users: seq<User>, data: Registration): (r: AuthResult)
    ensures r.Accepted? ==>
      r.user == User(Trim(data.username), data.email, data.password, Some(Customer))
    ensures r.Accepted? ==> forall i :: 0 <= i < |users| ==>
      users[i].email != r.user.email && users[i].username != r.user.username
    ensures r.Rejected? ==> r.error != WrongCredentials
  {
    if !ValidUsername(data.username) then Rejected(InvalidUsername)
    else if !ValidateEmailFormat(data.email) then Rejected(InvalidEmail)
    else if !ValidPasswords(data.password, data.confirmPassword) then Rejected(PasswordMismatch)
    else if UserExists(users, data) then Rejected(AlreadyExists)
    else
      ValidEmailIsTrimmed(data.email);
      Accepted(NewUser(data))
  }

  /** Registration checks username, email, passwords and uniqueness in that order and stops at the first failure. */
  lemma RegisterChecksInOrder(users: seq<User>, data: Registration)
    ensures CheckRegistration(users, data) == Rejected(InvalidUsername)
      <==> !ValidUsername(data.username)
    ensures CheckRegistration(users, data) == Rejected(InvalidEmail)
      <==> ValidUsername(data.username) && !ValidateEmailFormat(data.email)
    ensures CheckRegistration(users, data) == Rejected(PasswordMismatch)
      <==> ValidUsername(data.username) && ValidateEmailFormat(data.email)
           && !ValidPasswords(data.password, data.confirmPassword)
    ensures CheckRegistration(users, data) == Rejected(AlreadyExists)
      <==> ValidUsername(data.username) && ValidateEmailFormat(data.email)
           && ValidPasswords(data.password, data.confirmPassword) && UserExists(users, data)
    ensures CheckRegistration(users, data).Accepted?
      <==> ValidUsername(data.username) && ValidateEmailFormat(data.email)
           && ValidPasswords(data.password, data.confirmPassword) && !UserExists(users, data)
  {
  }

  /** An email or a username already in the directory is never registered again. */
  lemma RegisterRejectsTakenAccount(users: seq<User>, data: Registration, i: nat)
    requires i < |users|
    requires users[i].email == data.email || users[i].username == data.username
    ensures CheckRegistration(users, data).Rejected?
  {
    assert UserExistsAsWritten(users, data);
  }

  /** Appending the accepted user keeps emails and usernames distinct. */
  lemma RegisterKeepsAccountsDistinct(users: seq<User>, data: Registration)
    requires DistinctAccounts(users)
    requires CheckRegistration(users, data).Accepted?
    ensures DistinctAccounts(users + [CheckRegistration(users, data).user])
  {
    var u := CheckRegistration(users, data).user;
    var all := users + [u];
    forall i, j | 0 <= i < j < |all|
      ensures all[i].email != all[j].email && all[i].username != all[j].username
    {
      if j == |users| {
        assert all[j] == u && all[i] == users[i];
      }
    }
  }

  /** A directory holding the account "bob". */
  const BobDirectory := [User("bob", "bob@mail.com", "secret", Some(Customer))]

  /** A new account whose username is " bob", with a leading space. */
  const PaddedBob := Registration(" bob", "ann" + "@" + "mail" + "." + "com", "secret", "secret")

  /**
   * With the check as written, a username padded with a space passes next to
   * the same username without it, and the directory would then hold two
   * accounts with the same username.
   */
  lemma PaddedUsernameSlipsPastCheckAsWritten()
    ensures ValidUsername(PaddedBob.username)
    ensures ValidateEmailFormat(PaddedBob.email)
    ensures ValidPasswords(PaddedBob.password, PaddedBob.confirmPassword)
    ensures !UserExistsAsWritten(BobDirectory, PaddedBob)
    ensures !DistinctAccounts(BobDirectory + [NewUser(PaddedBob)])
  {
    PaddedUsernameTrims();
    SampleEmailIsValid();
    PaddedUsernameIsNew();
    PaddedUsernameDuplicates();
  }

  lemma PaddedUsernameIsNew()
    ensures !UserExistsAsWritten(BobDirectory, PaddedBob)
  {
    forall i | 0 <= i < |BobDirectory|
      ensures BobDirectory[i].email != PaddedBob.email && BobDirectory[i].username != PaddedBob.username
    {
      assert BobDirectory[i].email[0] != PaddedBob.email[0];
      assert BobDirectory[i].username[0] != PaddedBob.username[0];
    }
  }

  lemma PaddedUsernameDuplicates()
    ensures !DistinctAccounts(BobDirectory + [NewUser(PaddedBob)])
  {
    PaddedUsernameTrims();
    var all := BobDirectory + [NewUser(PaddedBob)];
    assert all[0].username == all[1].username;
  }

  /** The check this model uses rejects the padded duplicate. */
  lemma PaddedUsernameRejected()
    ensures CheckRegistration(BobDirectory, PaddedBob) == Rejected(AlreadyExists)
  {
    PaddedUsernameSlipsPastCheckAsWritten();
    PaddedUsernameTrims();
    assert BobDirectory[0].username == Trim(PaddedBob.username);
  }

  lemma PaddedUsernameTrims()
    ensures Trim(" bob") == "bob" && ValidUsername(" bob")
  {
    var s := " bob";
    assert IsWhitespace(s[0]) && !IsWhitespace(s[1]) && !IsWhitespace(s[3]);
    assert SkipLeading(s, 0) == 1;
    assert SkipTrailing(s, 1, 4) == 4;
    assert s[1..4] == "bob";
    PlainUsernameLength("bob");
  }

  lemma SampleEmailIsValid()
    ensures ValidateEmailFormat("ann" + "@" + "mail" + "." + "com")
  {
    assert NoSpaceOrAt("ann") && NoSpaceOrAt("mail") && NoSpaceOrAt("com");
    EmailFromParts("ann", "mail", "com");
  }

  // ---------------------------------------------------------------------------
  // Login and roles

  predicate MatchesCredentials(u: User, credentials: Credentials) {
    u.email == credentials.email && u.password == credentials.password
  }

  /** The account with role walker. */
  function AsWalker(u: User): User {
    u.(role := Some(Walker))
  }

  /** i is the first position of a user with this email. */
  predicate IsFirstWithEmail(users: seq<User>, i: int, email: string) {
    0 <= i < |users| && users[i].email == email
    && forall j :: 0 <= j < i ==> users[j].email != email
  }

  /** `users.findIndex(u => u.email === email)`. */
  function FirstWithEmail(users: seq<User>, email: string): (r: Option<nat>)
    ensures r.None? <==> forall i :: 0 <= i < |users| ==> users[i].email != email
    ensures r.Some? ==> IsFirstWithEmail(users, r.value, email)
  {
    JsArray.FindFirst(users, (u: User) => u.email == email)
  }

  /** In a directory with distinct emails every account is the first one with its email. */
  lemma DistinctAccountIsFirst(users: seq<User>, u: User)
    requires DistinctAccounts(users) && u in users
    ensures exists k :: IsFirstWithEmail(users, k, u.email) && users[k] == u
  {
    var k :| 0 <= k < |users| && users[k] == u;
    assert IsFirstWithEmail(users, k, u.email);
  }

  class AuthService {
    /** The directory, as stored under `users`. */
    var users: seq<User>
    /** The current user: the subject's value and the `currentUser` key, which every operation keeps equal. */
    var session: Option<User>

    /** The service starts from whatever the two storage keys hold. */
    constructor(storedUsers: seq<User>, savedSession: Option<User>)
      ensures users == storedUsers && session == savedSession
    {
      users := storedUsers;
      session := savedSession;
    }

    /** The session, when present, is one of the directory's records. */
    ghost predicate SessionInDirectory()
      reads this
    {
      session.Some? ==> session.value in users
    }

    function GetCurrentUser(): (u: Option<User>)
      reads this
      ensures u == session
    {
      session
    }

    function IsLoggedIn(): (b: bool)
      reads this
      ensures b <==> GetCurrentUser() != None
    {
      session != None
    }

    function IsWalker(): (b: bool)
      reads this
      ensures b ==> IsLoggedIn()
      ensures b <==> GetCurrentUser().Some? && GetCurrentUser().value.role == Some(Walker)
    {
      session.Some? && session.value.role == Some(Walker)
    }

    method Register(data: Registration) returns (r: AuthResult, message: string)
      modifies this
      ensures r == CheckRegistration(old(users), data)
      ensures message == ResultMessage(r, RegisteredMessage)
      ensures users == if r.Accepted? then old(users) + [r.user] else old(users)
      ensures session == if r.Accepted? then Some(r.user) else old(session)
      ensures r.Accepted? ==> IsLoggedIn() && SessionInDirectory()
      ensures DistinctAccounts(old(users)) ==> DistinctAccounts(users)
      ensures old(SessionInDirectory()) ==> SessionInDirectory()
    {
      r := CheckRegistration(users, data);
      if r.Accepted? {
        if DistinctAccounts(users) {
          RegisterKeepsAccountsDistinct(users, data);
        }
        users := users + [r.user];
        session := Some(r.user);
      }
      message := ResultMessage(r, RegisteredMessage);
    }

    method Login(credentials: Credentials) returns (r: AuthResult, message: string)
      modifies this
      ensures users == old(users)
      ensures message == ResultMessage(r, LoggedInMessage)
      ensures r.Accepted? <==> exists i :: 0 <= i < |users| && MatchesCredentials(users[i], credentials)
      ensures r.Accepted? ==> exists k :: (0 <= k < |users| && users[k] == r.user
        && MatchesCredentials(users[k], credentials)
        && forall i :: 0 <= i < k ==> !MatchesCredentials(users[i], credentials))
      ensures r.Accepted? ==> session == Some(r.user) && SessionInDirectory()
      ensures r.Rejected? ==> r.error == WrongCredentials && session == old(session)
    {
      var found := JsArray.FindFirst(users, (u: User) => MatchesCredentials(u, credentials));
      if found.None? {
        r := Rejected(WrongCredentials);
        return r, ResultMessage(r, LoggedInMessage);
      }
      var user := users[found.value];
      session := Some(user);
      r := Accepted(user);
      message := LoggedInMessage;
    }

    method Logout()
      modifies this
      ensures users == old(users) && session == None
      ensures !IsLoggedIn() && SessionInDirectory()
    {
      session := None;
    }

    method SetWalkerRole() returns (ok: bool)
      modifies this
      ensures ok <==> old(session).Some?
      ensures !ok ==> users == old(users) && session == old(session)
      ensures ok ==> session == Some(AsWalker(old(session).value)) && IsWalker()
      ensures ok ==> |users| == |old(users)| && forall i :: 0 <= i < |users| ==>
        users[i] == if IsFirstWithEmail(old(users), i, old(session).value.email)
                    then AsWalker(old(users)[i]) else old(users)[i]
      ensures DistinctAccounts(old(users)) ==> DistinctAccounts(users)
      ensures old(DistinctAccounts(users) && SessionInDirectory()) ==> SessionInDirectory()
    {
      if session.None? {
        return false;
      }
      var current := session.value;
      var index := FirstWithEmail(users, current.email);
      if index.Some? {
        ghost var before := users;
        if DistinctAccounts(users) && current in users {
          DistinctAccountIsFirst(users, current);
        }
        users := users[index.value := AsWalker(users[index.value])];
        assert forall i :: 0 <= i < |users| ==>
          users[i] == if IsFirstWithEmail(before, i, current.email) then AsWalker(before[i]) else before[i];
      }
      session := Some(AsWalker(current));
      ok := true;
    }
  }
}
